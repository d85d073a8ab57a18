/** Committing several documents at once: everything is staged before anything is
    published, and what was published is put back when a later step fails. */
module EsiCommit {
  import opened Algo
  import opened ByteStrings
  import opened Faults
  import opened Orders

  datatype File = File(bytes: Bytes, permissions: nat)
  datatype Node = Regular(file: File) | Link
  /** Files and symbolic links by their place: the path that has no dot component in it and
      no link but perhaps at its end. */
  type Files = map<string, Node>

  /** How the file system reads paths: the place a spelling denotes; the spelling put behind
      the working directory when it is not absolute; and the place a link leads to. */
  datatype Names = Names(place: string -> string, absolute: string -> string, leads: string -> string)

  ghost predicate Lawful(names: Names) {
    forall p :: names.place(names.place(p)) == names.place(p) && names.place(names.absolute(p)) == names.place(p)
      && names.place(names.leads(p)) == names.leads(p)
  }

  function LeadsTo(names: Names, files: Files, place: string): string {
    if place in files && files[place].Link? then names.leads(place) else place
  }

  /** What reading finds, through a link if there is one. */
  function Read(names: Names, files: Files, place: string): Option<File> {
    var at := LeadsTo(names, files, place);
    if at in files && files[at].Regular? then Some(files[at].file) else None
  }

  function AsNode(file: Option<File>): Option<Node> { if file.Some? then Some(Regular(file.value)) else None }

  datatype DocumentWrite = DocumentWrite(path: string, contents: Bytes, backup: bool)

  datatype PendingBackup = PendingBackup(path: string, replacement: File, restore: Option<File>, existed: bool, published: bool)
  datatype PendingWrite = PendingWrite(path: string, replacement: File, restore: Option<File>, existed: bool, published: bool,
                                       backup: Option<PendingBackup>)

  datatype Outcome = Committed | Refused | RolledBack | RollbackFailed
  datatype Existing = Present(file: File) | Absent | Unreadable

  function BackupPath(path: string): string { path + ".bak" }

  /** path_identity: what canonicalisation makes of a path whose file is there, and the
      spelling itself where nothing is there yet. */
  function Identity(names: Names, files: Files, path: string): string {
    var place := names.place(path);
    if Read(names, files, place).Some? then LeadsTo(names, files, place) else names.absolute(path)
  }

  /** The file system: step n fails if `fails(n)` says so, and then changes nothing. */
  class Disk {
    var files: Files
    var step: nat
    const fails: nat -> bool
    const names: Names
    const newMode: nat

    constructor (files: Files, fails: nat -> bool, names: Names, newMode: nat)
      ensures this.files == files && this.fails == fails && this.names == names && this.newMode == newMode
    {
      this.files, this.step, this.fails, this.names, this.newMode := files, 0, fails, names, newMode;
    }

    method PathIdentity(path: string) returns (r: Option<string>)
      modifies this`step
      ensures step == old(step) + 1
      ensures r == if fails(step) then None else Some(Identity(names, files, path))
    {
      step := step + 1;
      return if fails(step) then None else Some(Identity(names, files, path));
    }

    method ReadExisting(place: string) returns (r: Existing)
      modifies this`step
      ensures step == old(step) + 1
      ensures r == if fails(step) then Unreadable else match Read(names, files, place) case Some(file) => Present(file) case None => Absent
    {
      step := step + 1;
      return if fails(step) then Unreadable else match Read(names, files, place) case Some(file) => Present(file) case None => Absent;
    }

    /** A staging file has a random name of its own; no target is touched. */
    method Stage(bytes: Bytes, permissions: Option<nat>) returns (r: Option<File>)
      modifies this`step
      ensures step == old(step) + 1
      ensures r == if fails(step) then None else Some(File(bytes, if permissions.Some? then permissions.value else newMode))
    {
      step := step + 1;
      return if fails(step) then None else Some(File(bytes, if permissions.Some? then permissions.value else newMode));
    }

    /** A rename: it replaces a link, not what the link leads to. */
    method Replace(file: File, target: string) returns (ok: bool)
      modifies this`files, this`step
      ensures step == old(step) + 1 && ok == !fails(step)
      ensures files == if ok then old(files)[target := Regular(file)] else old(files)
    {
      step := step + 1;
      ok := !fails(step);
      if ok { files := files[target := Regular(file)]; }
    }

    /** Nothing to remove is no failure. */
    method RemoveIfExists(target: string) returns (ok: bool)
      modifies this`files, this`step
      ensures step == old(step) + 1 && ok == (target !in old(files) || !fails(step))
      ensures files == if ok then old(files) - {target} else old(files)
    {
      step := step + 1;
      if target !in files { assert files - {target} == files; return true; }
      ok := !fails(step);
      if ok { files := files - {target}; }
    }
  }

  ghost predicate Quiet(disk: Disk) { forall n :: !disk.fails(n) }

  // ---- The plan --------------------------------------------------------------------------

  function Lookup(files: Files, path: string): Option<Node> { if path in files then Some(files[path]) else None }

  /** What one write will do, worked out on the files as they were. */
  function Planned(names: Names, files: Files, newMode: nat, target: string, backup: Option<string>, contents: Bytes): PendingWrite {
    var original := Read(names, files, target);
    PendingWrite(target, File(contents, if original.Some? then original.value.permissions else newMode),
                 original, original.Some?, false,
                 if backup.Some? && original.Some? then Some(PlannedBackup(names, files, original.value, backup.value)) else None)
  }

  function PlannedBackup(names: Names, files: Files, original: File, path: string): PendingBackup {
    var previous := Read(names, files, path);
    PendingBackup(path, File(original.bytes, if previous.Some? then previous.value.permissions else original.permissions),
                  previous, previous.Some?, false)
  }

  function Backup(names: Names, w: DocumentWrite): Option<string> {
    if w.backup then Some(names.place(BackupPath(w.path))) else None
  }

  // ---- Validation ------------------------------------------------------------------------

  function TargetPaths(writes: seq<DocumentWrite>): seq<string> { Map((w: DocumentWrite) => w.path, writes) }

  function BackupPaths(writes: seq<DocumentWrite>): seq<string> {
    if writes == [] then [] else
      var last := writes[|writes|-1];
      BackupPaths(writes[..|writes|-1]) + if last.backup then [BackupPath(last.path)] else []
  }

  /** The paths that are compared, targets first. */
  function CheckedPaths(writes: seq<DocumentWrite>): seq<string> { TargetPaths(writes) + BackupPaths(writes) }

  ghost function Identities(names: Names, files: Files, paths: seq<string>): seq<string> {
    Map(p => Identity(names, files, p), paths)
  }

  /** What validation looks at: no two identities are the same. */
  ghost predicate Apart(names: Names, files: Files, writes: seq<DocumentWrite>) {
    Distinct(Identities(names, files, CheckedPaths(writes)))
  }

  /** No two of the paths denote one place. */
  ghost predicate PlacesApart(names: Names, writes: seq<DocumentWrite>) { Distinct(Map(names.place, CheckedPaths(writes))) }

  predicate Exists(names: Names, files: Files, path: string) { Read(names, files, names.place(path)).Some? }

  /** What it is for: no two of the paths denote one place, or lead to one file. */
  ghost predicate FilesApart(names: Names, files: Files, writes: seq<DocumentWrite>) {
    var paths := CheckedPaths(writes);
    && PlacesApart(names, writes)
    && forall i, j :: 0 <= i < j < |paths| && Exists(names, files, paths[i]) && Exists(names, files, paths[j]) ==>
         LeadsTo(names, files, names.place(paths[i])) != LeadsTo(names, files, names.place(paths[j]))
  }

  /** No two paths without a file denote the same place. */
  ghost predicate MissingApart(names: Names, files: Files, writes: seq<DocumentWrite>) {
    var paths := CheckedPaths(writes);
    forall i, j :: 0 <= i < j < |paths| && !Exists(names, files, paths[i]) && !Exists(names, files, paths[j]) ==>
      names.place(paths[i]) != names.place(paths[j])
  }

  /** Paths without a file are spelled without dot components and without links on the way. */
  ghost predicate MissingCanonical(names: Names, files: Files, writes: seq<DocumentWrite>) {
    forall p :: p in CheckedPaths(writes) && !Exists(names, files, p) ==> names.absolute(p) == names.place(p)
  }

  /** Comparing identities is comparing files wherever there is a file; where there is
      none it is comparing spellings. */
  lemma IdentitiesAndFiles(names: Names, files: Files, writes: seq<DocumentWrite>)
    requires Lawful(names)
    ensures FilesApart(names, files, writes) <==> Apart(names, files, writes) && MissingApart(names, files, writes)
    ensures Apart(names, files, writes) && MissingCanonical(names, files, writes) ==> FilesApart(names, files, writes)
  {
    var paths := CheckedPaths(writes);
    var ids, places := Identities(names, files, paths), Map(names.place, paths);
    forall i | 0 <= i < |paths| ensures ids[i] == Identity(names, files, paths[i]) && places[i] == names.place(paths[i]) {}
    hide CheckedPaths, Lawful;
    forall i, j | 0 <= i < j < |paths|
      ensures ids[i] != ids[j] && MissingApart(names, files, writes) ==> places[i] != places[j]
      ensures ids[i] != ids[j] && MissingCanonical(names, files, writes) ==> places[i] != places[j]
      ensures FilesApart(names, files, writes) ==> ids[i] != ids[j]
    {
      SameIdentity(names, files, paths[i], paths[j]);
      assert paths[i] in paths && paths[j] in paths;
      assert FilesApart(names, files, writes) ==> places[i] != places[j];
    }
    forall i, j | 0 <= i < j < |paths| && Exists(names, files, paths[i]) && Exists(names, files, paths[j]) && ids[i] != ids[j]
      ensures LeadsTo(names, files, names.place(paths[i])) != LeadsTo(names, files, names.place(paths[j])) {}
  }

  /** Two paths with one identity denote one place or lead to one file. */
  lemma SameIdentity(names: Names, files: Files, p: string, q: string)
    requires Lawful(names)
    ensures Identity(names, files, p) == Identity(names, files, q) ==>
      if Exists(names, files, p) && Exists(names, files, q)
      then LeadsTo(names, files, names.place(p)) == LeadsTo(names, files, names.place(q)) else names.place(p) == names.place(q)
    ensures names.place(p) == names.place(q) && Exists(names, files, p) ==> Identity(names, files, p) == Identity(names, files, q)
  {
    assert names.place(names.absolute(p)) == names.place(p) && names.place(names.absolute(q)) == names.place(q);
    assert names.place(LeadsTo(names, files, names.place(p))) == LeadsTo(names, files, names.place(p));
    assert names.place(LeadsTo(names, files, names.place(q))) == LeadsTo(names, files, names.place(q));
  }

  ghost predicate Seen(seen: set<string>, idents: seq<string>) {
    Distinct(idents) && forall x :: x in seen <==> x in idents
  }

  /** Adds an identity to those seen, unless it is there. */
  method Insert(seen: set<string>, ident: string, ghost idents: seq<string>) returns (ok: bool, now: set<string>)
    requires Seen(seen, idents)
    ensures ok <==> Distinct(idents + [ident])
    ensures ok ==> Seen(now, idents + [ident])
  {
    now := seen + {ident};
    ok := ident !in seen;
    if !ok {
      ghost var k :| 0 <= k < |idents| && idents[k] == ident;
      assert (idents + [ident])[k] == (idents + [ident])[|idents|];
    }
  }

  lemma PrefixApart(part: seq<string>, all: seq<string>)
    requires part <= all && !Distinct(part)
    ensures !Distinct(all)
  {}

  /** One turn of either loop of the validation. */
  method CheckPath(disk: Disk, path: string, seen: set<string>, ghost done: seq<string>, ghost all: seq<string>)
    returns (ok: bool, now: set<string>)
    requires Seen(seen, Identities(disk.names, disk.files, done)) && done + [path] <= all
    modifies disk`step
    ensures ok ==> Seen(now, Identities(disk.names, disk.files, done + [path]))
    ensures disk.step == old(disk.step) + 1
    ensures !ok ==> !Distinct(Identities(disk.names, disk.files, all)) || disk.fails(disk.step)
    ensures !Distinct(Identities(disk.names, disk.files, done + [path])) ==> !ok
  {
    now := seen;
    var ident := disk.PathIdentity(path);
    assert Identities(disk.names, disk.files, done + [path])
      == Identities(disk.names, disk.files, done) + [Identity(disk.names, disk.files, path)];
    if ident.None? { return false, seen; }
    ok, now := Insert(seen, ident.value, Identities(disk.names, disk.files, done));
    if !ok { PrefixApart(Identities(disk.names, disk.files, done + [path]), Identities(disk.names, disk.files, all)); }
  }

  lemma {:induction false} BackupPathsPrefix(writes: seq<DocumentWrite>, i: nat)
    requires i <= |writes|
    ensures BackupPaths(writes[..i]) <= BackupPaths(writes)
  {
    if i < |writes| {
      assert writes[..|writes|-1][..i] == writes[..i];
      BackupPathsPrefix(writes[..|writes|-1], i);
    } else {
      assert writes[..i] == writes;
    }
  }

  /** validate_document_writes: one set, targets first, then backups. */
  method ValidateDocumentWrites(disk: Disk, writes: seq<DocumentWrite>) returns (ok: bool)
    modifies disk`step
    ensures ok ==> Apart(disk.names, disk.files, writes)
    ensures !ok ==> !Apart(disk.names, disk.files, writes) || FailedWithin(disk.fails, old(disk.step), disk.step)
    ensures disk.step >= old(disk.step)
  {
    hide Seen, Distinct, Identities;
    ghost var names, files := disk.names, disk.files;
    ghost var targets, all := TargetPaths(writes), CheckedPaths(writes);
    var seen: set<string> := {};
    SeenNothing(names, files);
    for i := 0 to |writes|
      invariant disk.files == files && Seen(seen, Identities(names, files, targets[..i]))
      invariant disk.step >= old(disk.step)
    {
      assert targets[..i+1] == targets[..i] + [writes[i].path];
      ok, seen := CheckPath(disk, writes[i].path, seen, targets[..i], all);
      if !ok { return; }
    }
    assert targets[..|writes|] == targets && targets + BackupPaths(writes[..0]) == targets;
    for i := 0 to |writes|
      invariant disk.files == files && Seen(seen, Identities(names, files, targets + BackupPaths(writes[..i])))
      invariant disk.step >= old(disk.step)
    {
      ghost var done := targets + BackupPaths(writes[..i]);
      assert writes[..i+1][..i] == writes[..i];
      BackupPathsPrefix(writes, i + 1);
      if writes[i].backup {
        assert done + [BackupPath(writes[i].path)] == targets + BackupPaths(writes[..i+1]);
        ok, seen := CheckPath(disk, BackupPath(writes[i].path), seen, done, all);
        if !ok { return; }
      } else {
        assert done == targets + BackupPaths(writes[..i+1]);
      }
    }
    assert writes[..|writes|] == writes;
    SeenAll(seen, Identities(names, files, all));
    return true;
  }

  lemma SeenNothing(names: Names, files: Files)
    ensures Seen({}, Identities(names, files, []))
  {}

  lemma SeenAll(seen: set<string>, idents: seq<string>)
    requires Seen(seen, idents)
    ensures Distinct(idents)
  {}

  // ---- Staging -----------------------------------------------------------------------------

  function PlanOf(files: Files, newMode: nat, names: Names, w: DocumentWrite): PendingWrite {
    Planned(names, files, newMode, names.place(w.path), Backup(names, w), w.contents)
  }

  /** The plan for every write, on the files as they are. */
  ghost function Plan(files: Files, newMode: nat, names: Names, writes: seq<DocumentWrite>): seq<PendingWrite> {
    Map(w => PlanOf(files, newMode, names, w), writes)
  }

  method StageBackup(disk: Disk, original: File, path: string) returns (r: Option<PendingBackup>)
    modifies disk`step
    ensures r.Some? ==> r.value == PlannedBackup(disk.names, disk.files, original, path)
    ensures disk.step >= old(disk.step) && (r.None? ==> FailedWithin(disk.fails, old(disk.step), disk.step))
  {
    var previous := disk.ReadExisting(path);
    if previous.Unreadable? { return None; }
    var replacement := disk.Stage(original.bytes, Some(if previous.Present? then previous.file.permissions else original.permissions));
    if replacement.None? { return None; }
    var restore: Option<File> := None;
    if previous.Present? {
      restore := disk.Stage(previous.file.bytes, Some(previous.file.permissions));
      if restore.None? { return None; }
    }
    return Some(PendingBackup(path, replacement.value, restore, previous.Present?, false));
  }

  /** Nothing but staging files is written, so the plan does not change under way. */
  method StageWrite(disk: Disk, target: string, backup: Option<string>, contents: Bytes) returns (r: Option<PendingWrite>)
    modifies disk`step
    ensures r.Some? ==> r.value == Planned(disk.names, disk.files, disk.newMode, target, backup, contents)
    ensures disk.step >= old(disk.step) && (r.None? ==> FailedWithin(disk.fails, old(disk.step), disk.step))
  {
    var original := disk.ReadExisting(target);
    if original.Unreadable? { return None; }
    var replacement := disk.Stage(contents, if original.Present? then Some(original.file.permissions) else None);
    if replacement.None? { return None; }
    var restore: Option<File> := None;
    var pendingBackup: Option<PendingBackup> := None;
    if original.Present? {
      restore := disk.Stage(original.file.bytes, Some(original.file.permissions));
      if restore.None? { return None; }
      if backup.Some? {
        pendingBackup := StageBackup(disk, original.file, backup.value);
        if pendingBackup.None? { return None; }
      }
    }
    return Some(PendingWrite(target, replacement.value, restore, original.Present?, false, pendingBackup));
  }

  // ---- Publishing and rolling back -------------------------------------------------------------

  /** A file is as it was. */
  ghost predicate SameAt(now: Files, before: Files, path: string) { Lookup(now, path) == Lookup(before, path) }

  /** What an item restores is what was read there. */
  ghost predicate Restores(names: Names, before: Files, p: PendingWrite) {
    && p.restore == Read(names, before, p.path) && p.existed == p.restore.Some?
    && (p.backup.Some? ==> p.backup.value.restore == Read(names, before, p.backup.value.path))
    && (p.backup.Some? ==> p.backup.value.existed == p.backup.value.restore.Some?)
  }

  /** Putting back what an item has changed leads to these files. */
  ghost predicate RestoresTo(goal: Files, p: PendingWrite) {
    && (p.published ==> AsNode(p.restore) == Lookup(goal, p.path) && p.existed == p.restore.Some?)
    && (p.backup.Some? && p.backup.value.published ==>
          AsNode(p.backup.value.restore) == Lookup(goal, p.backup.value.path) && p.backup.value.existed == p.backup.value.restore.Some?)
  }

  /** What putting back can lead to: where a link was changed, a file with what was read
      through the link. */
  function Settled(names: Names, files: Files, changed: set<string>): (r: Files)
    ensures forall x :: Lookup(r, x) == if x in changed then AsNode(Read(names, files, x)) else Lookup(files, x)
  {
    map x | x in files.Keys + changed && (x in changed ==> Read(names, files, x).Some?) ::
      if x in changed then Regular(Read(names, files, x).value) else files[x]
  }

  /** As before, but that a link among the files touched may have become the file it led
      to, or be gone if it led nowhere. */
  ghost predicate BackAgain(names: Names, now: Files, before: Files, touched: set<string>) {
    forall x :: SameAt(now, before, x)
      || (x in touched && Lookup(before, x) == Some(Link) && Lookup(now, x) == AsNode(Read(names, before, x)))
  }

  lemma SettledIsBack(names: Names, before: Files, changed: set<string>, touched: set<string>)
    requires changed <= touched
    ensures BackAgain(names, Settled(names, before, changed), before, touched)
  {}

  ghost predicate NoLinks(files: Files, places: set<string>) { forall x :: x in places ==> Lookup(files, x) != Some(Link) }

  /** Without links this is: every file as it was. */
  lemma BackWithoutLinks(names: Names, now: Files, before: Files, touched: set<string>)
    requires BackAgain(names, now, before, touched) && NoLinks(before, touched)
    ensures now == before
  {
    AllSame(now, before);
  }

  /** For instance: a link to a file, changed and put back, is a file of its own. */
  lemma RollbackUnlinks(names: Names, file: File)
    requires names.leads("/d/link") == "/d/file"
    ensures var before: Files := map["/d/link" := Link, "/d/file" := Regular(file)];
      Settled(names, before, {"/d/link"}) == map["/d/link" := Regular(file), "/d/file" := Regular(file)]
  {
    var before: Files := map["/d/link" := Link, "/d/file" := Regular(file)];
    assert "/d/link"[3] != "/d/file"[3];
    assert Read(names, before, "/d/link") == Some(file);
  }

  /** The files an item has changed so far. */
  function Changed(p: PendingWrite): set<string> {
    (if p.published then {p.path} else {}) + (if p.backup.Some? && p.backup.value.published then {p.backup.value.path} else {})
  }

  function ChangedBy(items: seq<PendingWrite>): set<string> {
    if items == [] then {} else ChangedBy(items[..|items|-1]) + Changed(items[|items|-1])
  }

  function FilesOf(p: PendingWrite): set<string> { {p.path} + if p.backup.Some? then {p.backup.value.path} else {} }

  /** The files of a list of items, published or not. */
  function Concerned(items: seq<PendingWrite>): set<string> {
    set i, x | 0 <= i < |items| && x in FilesOf(items[i]) :: x
  }

  /** Everything outside a set of files is as it was. */
  ghost predicate SameOutside(now: Files, before: Files, touched: set<string>) {
    forall x :: x !in touched ==> SameAt(now, before, x)
  }

  /** One file is put back: the staged copy of what was there, or nothing. */
  method PutBack(disk: Disk, restore: Option<File>, existed: bool, path: string, ghost goal: Files) returns (ok: bool)
    requires AsNode(restore) == Lookup(goal, path) && existed == restore.Some?
    modifies disk`files, disk`step
    ensures disk.step == old(disk.step) + 1 && (!disk.fails(disk.step) ==> ok)
    ensures ok ==> SameAt(disk.files, goal, path)
    ensures SameOutside(disk.files, old(disk.files), {path})
  {
    if restore.Some? {
      ok := disk.Replace(restore.value, path);
    } else if existed {
      ok := true;
    } else {
      ok := disk.RemoveIfExists(path);
    }
  }

  /** The files that are put back, in that order: from the last item to the first, the
      target before its backup. */
  function PutBacks(items: seq<PendingWrite>): seq<string> {
    if items == [] then [] else PutBacksOf(items[|items|-1]) + PutBacks(items[..|items|-1])
  }

  function PutBacksOf(p: PendingWrite): seq<string> {
    (if p.published then [p.path] else []) + if p.backup.Some? && p.backup.value.published then [p.backup.value.path] else []
  }

  /** Those whose own step fails, one step a file behind step `start`. */
  ghost function Stuck(order: seq<string>, fails: nat -> bool, start: nat): set<string> {
    set i | 0 <= i < |order| && fails(start + 1 + i) :: order[i]
  }

  lemma StuckThen(a: seq<string>, b: seq<string>, fails: nat -> bool, start: nat)
    ensures Stuck(a + b, fails, start) == Stuck(a, fails, start) + Stuck(b, fails, start + |a|)
  {
    var all := a + b;
    forall x ensures x in Stuck(all, fails, start) <==> x in Stuck(a, fails, start) + Stuck(b, fails, start + |a|) {
      if x in Stuck(a, fails, start) {
        var i :| 0 <= i < |a| && fails(start + 1 + i) && a[i] == x;
        assert all[i] == x;
      }
      if x in Stuck(b, fails, start + |a|) {
        var i :| 0 <= i < |b| && fails(start + |a| + 1 + i) && b[i] == x;
        assert all[|a| + i] == x && start + 1 + (|a| + i) == start + |a| + 1 + i;
      }
      if x in Stuck(all, fails, start) {
        var i :| 0 <= i < |all| && fails(start + 1 + i) && all[i] == x;
        if i >= |a| { assert b[i - |a|] == x && start + |a| + 1 + (i - |a|) == start + 1 + i; }
      }
    }
  }

  lemma OneStuck(path: string, fails: nat -> bool, start: nat)
    ensures Stuck([path], fails, start) == if fails(start + 1) then {path} else {}
  {
    assert start + 1 + 0 == start + 1;
    if fails(start + 1) { assert [path][0] in Stuck([path], fails, start); }
  }

  lemma PuttingBack(now: Files, was: Files, goal: Files, touched: set<string>, path: string, back: bool, all: set<string>)
    requires SameOutside(now, was, {path}) && SameOutside(was, goal, touched + {path}) && (back ==> SameAt(now, goal, path))
    requires SameOutside(was, goal, all) && path in all
    ensures SameOutside(now, goal, touched + if back then {} else {path})
    ensures SameOutside(now, goal, all)
  {
    forall x | x != path ensures SameAt(now, was, x) {}
    forall x | x !in touched && x != path ensures SameAt(now, goal, x) { assert SameAt(now, was, x) && SameAt(was, goal, x); }
    forall x | x !in all ensures SameAt(now, goal, x) { assert SameAt(now, was, x) && SameAt(was, goal, x); }
  }

  /** Both put-backs of one item, where there are any. */
  method PutItemBack(disk: Disk, item: PendingWrite, ghost goal: Files, ghost touched: set<string>, ghost all: set<string>)
    returns (ok: bool, ghost stuck: set<string>)
    requires RestoresTo(goal, item) && SameOutside(disk.files, goal, touched + Changed(item))
    requires SameOutside(disk.files, goal, all) && FilesOf(item) <= all
    modifies disk`files, disk`step
    ensures disk.step == old(disk.step) + |PutBacksOf(item)|
    ensures SameOutside(disk.files, goal, touched + stuck) && SameOutside(disk.files, goal, all)
    ensures (ok <==> stuck == {}) && stuck <= Stuck(PutBacksOf(item), disk.fails, old(disk.step))
  {
    hide SameAt, SameOutside, Lookup, Stuck;
    ok, stuck := true, {};
    ghost var start, was := disk.step, disk.files;
    ghost var first: seq<string> := if item.published then [item.path] else [];
    ghost var second: seq<string> := if item.backup.Some? && item.backup.value.published then [item.backup.value.path] else [];
    ghost var later := if item.backup.Some? && item.backup.value.published then {item.backup.value.path} else {};
    assert PutBacksOf(item) == first + second;
    StuckThen(first, second, disk.fails, start);
    if item.published {
      assert touched + later + {item.path} == touched + Changed(item);
      ok := PutBack(disk, item.restore, item.existed, item.path, goal);
      PuttingBack(disk.files, was, goal, touched + later, item.path, ok, all);
      stuck := if ok then {} else {item.path};
      OneStuck(item.path, disk.fails, start);
    } else {
      assert touched + later + stuck == touched + Changed(item);
    }
    if item.backup.Some? && item.backup.value.published {
      var backup := item.backup.value;
      ghost var mid, step := disk.files, disk.step;
      assert touched + later + stuck == touched + stuck + {backup.path};
      var back := PutBack(disk, backup.restore, backup.existed, backup.path, goal);
      PuttingBack(disk.files, mid, goal, touched + stuck, backup.path, back, all);
      OneStuck(backup.path, disk.fails, step);
      assert touched + stuck + (if back then {} else {backup.path}) == touched + (stuck + if back then {} else {backup.path});
      stuck := stuck + if back then {} else {backup.path};
      ok := ok && back;
    } else {
      assert touched + later + stuck == touched + stuck;
    }
  }

  /** rollback: a failure is remembered and the rest is put back all the same. */
  method Rollback(disk: Disk, items: seq<PendingWrite>, ghost goal: Files) returns (ok: bool)
    requires forall i :: 0 <= i < |items| ==> RestoresTo(goal, items[i])
    requires SameOutside(disk.files, goal, ChangedBy(items)) && SameOutside(disk.files, goal, Concerned(items))
    modifies disk`files, disk`step
    ensures ok ==> disk.files == goal
    ensures SameOutside(disk.files, goal, Stuck(PutBacks(items), disk.fails, old(disk.step)))
    ensures SameOutside(disk.files, goal, Concerned(items))
    ensures disk.step == old(disk.step) + |PutBacks(items)|
    ensures !ok ==> Stuck(PutBacks(items), disk.fails, old(disk.step)) != {}
  {
    hide SameAt, SameOutside, Lookup, Stuck, RestoresTo, ChangedBy, Concerned, PutBacks;
    ok := true;
    ghost var all, start := Concerned(items), disk.step;
    ghost var stuck: set<string>, done: seq<string> := {}, [];
    var j := |items|;
    assert items[..j] == items;
    assert ChangedBy(items) + stuck == ChangedBy(items) && [] + PutBacks(items) == PutBacks(items);
    while j > 0
      invariant 0 <= j <= |items|
      invariant PutBacks(items) == done + PutBacks(items[..j]) && disk.step == start + |done|
      invariant SameOutside(disk.files, goal, ChangedBy(items[..j]) + stuck) && SameOutside(disk.files, goal, all)
      invariant (ok <==> stuck == {}) && stuck <= Stuck(done, disk.fails, start)
    {
      j := j - 1;
      LastItem(items, j, done);
      ghost var rest := ChangedBy(items[..j]) + stuck;
      assert ChangedBy(items[..j+1]) + stuck == rest + Changed(items[j]);
      var back;
      ghost var more;
      back, more := PutItemBack(disk, items[j], goal, rest, all);
      assert rest + more == ChangedBy(items[..j]) + (stuck + more);
      StuckThen(done, PutBacksOf(items[j]), disk.fails, start);
      done, stuck := done + PutBacksOf(items[j]), stuck + more;
      ok := ok && back;
    }
    RollbackEnds(disk.files, goal, items, done, stuck, Stuck(done, disk.fails, start));
  }

  lemma LastItem(items: seq<PendingWrite>, j: nat, done: seq<string>)
    requires j < |items|
    ensures ChangedBy(items[..j+1]) == ChangedBy(items[..j]) + Changed(items[j]) && FilesOf(items[j]) <= Concerned(items)
    ensures done + PutBacks(items[..j+1]) == done + PutBacksOf(items[j]) + PutBacks(items[..j])
  {
    assert items[..j+1][..j] == items[..j];
  }

  lemma RollbackEnds(now: Files, goal: Files, items: seq<PendingWrite>, done: seq<string>, stuck: set<string>, most: set<string>)
    requires SameOutside(now, goal, ChangedBy(items[..0]) + stuck) && PutBacks(items) == done + PutBacks(items[..0]) && stuck <= most
    ensures PutBacks(items) == done && SameOutside(now, goal, most) && (stuck == {} ==> now == goal)
  {
    assert items[..0] == [] && done + [] == done && {} + stuck == stuck;
    LessTouched(now, goal, stuck, most);
    if stuck == {} { AllSame(now, goal); }
  }

  lemma LessTouched(now: Files, before: Files, less: set<string>, more: set<string>)
    requires SameOutside(now, before, less) && less <= more
    ensures SameOutside(now, before, more)
  {}

  lemma AllSame(now: Files, before: Files)
    requires SameOutside(now, before, {})
    ensures now == before
  {
    forall x ensures x in now <==> x in before { assert SameAt(now, before, x); }
    forall x | x in now ensures now[x] == before[x] { assert SameAt(now, before, x); }
  }

  type Effect = (string, File)

  /** What publishing an item writes, the backup first. */
  function Effects(p: PendingWrite): seq<Effect> {
    (if p.backup.Some? then [(p.backup.value.path, p.backup.value.replacement)] else []) + [(p.path, p.replacement)]
  }

  function AllEffects(items: seq<PendingWrite>): seq<Effect> { Concat(Map(Effects, items)) }

  /** One effect after the other: of two on the same file the later one shows. */
  function Published(files: Files, effects: seq<Effect>): Files {
    if effects == [] then files
    else Published(files, effects[..|effects|-1])[effects[|effects|-1].0 := Regular(effects[|effects|-1].1)]
  }

  lemma {:induction false} PublishedThen(files: Files, a: seq<Effect>, b: seq<Effect>)
    ensures Published(files, a + b) == Published(Published(files, a), b)
  {
    if b == [] {
      assert a + b == a;
    } else {
      assert (a + b)[..|a + b| - 1] == a + b[..|b|-1];
      PublishedThen(files, a, b[..|b|-1]);
    }
  }

  /** The item without its flags. */
  function Plain(p: PendingWrite): PendingWrite {
    p.(published := false, backup := if p.backup.Some? then Some(p.backup.value.(published := false)) else None)
  }

  /** What an item has done so far. */
  function Changes(p: PendingWrite): seq<Effect> {
    (if p.backup.Some? && p.backup.value.published then [(p.backup.value.path, p.backup.value.replacement)] else [])
      + if p.published then [(p.path, p.replacement)] else []
  }

  function AllChanges(items: seq<PendingWrite>): seq<Effect> { Concat(Map(Changes, items)) }

  function PathsOf(effects: seq<Effect>): seq<string> { Map((e: Effect) => e.0, effects) }

  function Backwards<T>(s: seq<T>): seq<T> { if s == [] then [] else Backwards(s[1..]) + [s[0]] }

  /** The backup first, then the target, one step each up to the first that fails; the flags
      say how far it got. */
  method PublishItem(disk: Disk, item: PendingWrite) returns (ok: bool, now: PendingWrite)
    requires Plain(item) == item
    modifies disk`files, disk`step
    ensures Plain(now) == item && SameOutside(disk.files, old(disk.files), Changed(now))
    ensures disk.files == Published(old(disk.files), Changes(now)) && !FailedWithin(disk.fails, old(disk.step), old(disk.step) + |Changes(now)|)
    ensures if ok then Changes(now) == Effects(item) else Changes(now) < Effects(item)
    ensures disk.step == old(disk.step) + |Changes(now)| + (if ok then 0 else 1) && (!ok ==> disk.fails(disk.step))
  {
    now := item;
    ghost var files := disk.files;
    if item.backup.Some? {
      ok := disk.Replace(item.backup.value.replacement, item.backup.value.path);
      if !ok { return; }
      now := now.(backup := Some(item.backup.value.(published := true)));
      assert Effects(item)[..1] == [(item.backup.value.path, item.backup.value.replacement)];
      assert Effects(item)[..1][..0] == [];
      assert disk.files == Published(files, Effects(item)[..1]);
      assert Changes(now) == Effects(item)[..1];
    } else {
      assert Effects(item)[..0] == [];
    }
    ok := disk.Replace(item.replacement, item.path);
    if ok { now := now.(published := true); }
  }

  lemma ChangesConcat(a: seq<PendingWrite>, b: seq<PendingWrite>)
    ensures AllChanges(a + b) == AllChanges(a) + AllChanges(b)
  {
    assert Map(Changes, a + b) == Map(Changes, a) + Map(Changes, b);
    ConcatBoth(Map(Changes, a), Map(Changes, b));
  }

  lemma {:induction false} ConcatBoth<T>(a: seq<seq<T>>, b: seq<seq<T>>)
    ensures Concat(a + b) == Concat(a) + Concat(b)
  {
    if a == [] {
      assert a + b == b;
    } else {
      assert (a + b)[1..] == a[1..] + b;
      ConcatBoth(a[1..], b);
    }
  }

  lemma ChangesOne(p: PendingWrite)
    ensures AllChanges([p]) == Changes(p)
  {
    assert Map(Changes, [p]) == [Changes(p)] && [Changes(p)][1..] == [];
    assert Concat([Changes(p)]) == Changes(p) + Concat([]);
  }

  lemma {:induction false} NoChanges(items: seq<PendingWrite>)
    requires forall i :: 0 <= i < |items| ==> Plain(items[i]) == items[i]
    ensures AllChanges(items) == []
  {
    if items != [] {
      NoChanges(items[1..]);
      ChangesConcat([items[0]], items[1..]);
      ChangesOne(items[0]);
      assert [items[0]] + items[1..] == items;
    }
  }

  /** One more item gets as far as it does. */
  lemma ChangesNext(items: seq<PendingWrite>, i: nat, p: PendingWrite)
    requires i < |items| && forall j :: i <= j < |items| ==> Plain(items[j]) == items[j]
    ensures AllChanges(items[i := p]) == AllChanges(items) + Changes(p)
  {
    var front, back := items[..i], items[i+1..];
    assert items == front + items[i..] && items[i := p] == front + ([p] + back);
    ChangesConcat(front, items[i..]);
    ChangesConcat(front, [p] + back);
    ChangesConcat([p], back);
    ChangesOne(p);
    NoChanges(items[i..]);
    NoChanges(back);
  }

  lemma {:induction false} BackwardsConcat<T>(a: seq<T>, b: seq<T>)
    ensures Backwards(a + b) == Backwards(b) + Backwards(a)
  {
    if a == [] {
      assert a + b == b;
    } else {
      assert (a + b)[1..] == a[1..] + b;
      BackwardsConcat(a[1..], b);
    }
  }

  lemma PathsSnoc(items: seq<PendingWrite>)
    requires items != []
    ensures PathsOf(AllChanges(items)) == PathsOf(AllChanges(items[..|items|-1])) + PathsOf(Changes(items[|items|-1]))
  {
    var front, last := items[..|items|-1], items[|items|-1];
    ChangesConcat(front, [last]);
    ChangesOne(last);
    assert front + [last] == items;
    hide AllChanges, Changes;
  }

  /** What is put back is what was changed, the last change first. */
  lemma {:induction false} PutBacksAreChanges(items: seq<PendingWrite>)
    ensures PutBacks(items) == Backwards(PathsOf(AllChanges(items)))
    ensures ChangedBy(items) == set x | x in PathsOf(AllChanges(items))
  {
    if items == [] {
      NoChanges(items);
    } else {
      var front, last := items[..|items|-1], items[|items|-1];
      PutBacksAreChanges(front);
      PathsSnoc(items);
      PutBackOne(last);
      hide PutBacksOf, Changed, AllChanges, Changes, PathsOf, Backwards;
      var a, b := PathsOf(AllChanges(front)), PathsOf(Changes(last));
      BackwardsConcat(a, b);
      assert forall x :: x in a + b <==> x in a || x in b;
    }
  }

  lemma PutBackOne(p: PendingWrite)
    ensures PutBacksOf(p) == Backwards(PathsOf(Changes(p))) && Changed(p) == set x | x in PathsOf(Changes(p))
  {
    var first := if p.backup.Some? && p.backup.value.published then [p.backup.value.path] else [];
    var second := if p.published then [p.path] else [];
    assert PathsOf(Changes(p)) == first + second;
    assert PutBacksOf(p) == second + first;
    BackwardsConcat(first, second);
    BackwardsShort(first);
    BackwardsShort(second);
    hide Backwards, Changes, PathsOf;
    assert forall x :: x in first + second <==> x in first || x in second;
  }

  lemma BackwardsShort<T>(s: seq<T>)
    requires |s| <= 1
    ensures Backwards(s) == s
  {
    if s != [] { assert s[1..] == []; }
  }

  lemma {:induction false} ChangedMember(items: seq<PendingWrite>, i: nat)
    requires i < |items|
    ensures Changed(items[i]) <= ChangedBy(items)
  {
    if i < |items| - 1 {
      ChangedMember(items[..|items|-1], i);
      assert items[..|items|-1][i] == items[i];
    }
  }

  lemma {:induction false} ChangedUpdate(items: seq<PendingWrite>, i: nat, p: PendingWrite)
    requires i < |items| && Changed(items[i]) <= Changed(p)
    ensures ChangedBy(items) + Changed(p) <= ChangedBy(items[i := p])
  {
    var now := items[i := p];
    if i < |items| - 1 {
      ChangedUpdate(items[..|items|-1], i, p);
      assert now[..|items|-1] == items[..|items|-1][i := p];
    } else {
      assert now[..|items|-1] == items[..|items|-1];
    }
  }

  lemma {:induction false} NothingChanged(items: seq<PendingWrite>)
    requires forall i :: 0 <= i < |items| ==> Plain(items[i]) == items[i]
    ensures ChangedBy(items) == {}
  {
    if items != [] { NothingChanged(items[..|items|-1]); }
  }

  /** The state of the publishing loop. */
  ghost predicate Publishing(now: Files, before: Files, items: seq<PendingWrite>, plan: seq<PendingWrite>, i: nat) {
    && |items| == |plan| && i <= |items|
    && (forall j :: 0 <= j < |items| ==> Plain(items[j]) == plan[j])
    && (forall j :: i <= j < |items| ==> items[j] == plan[j])
    && now == Published(before, AllEffects(plan[..i])) && AllChanges(items) == AllEffects(plan[..i])
    && SameOutside(now, before, ChangedBy(items)) && SameOutside(now, before, Concerned(plan))
  }

  lemma PublishOutside(was: Files, now: Files, before: Files, items: seq<PendingWrite>, plan: seq<PendingWrite>, i: nat, p: PendingWrite)
    requires i < |items| == |plan| && Changed(items[i]) == {} && FilesOf(p) == FilesOf(plan[i]) && SameOutside(now, was, Changed(p))
    requires SameOutside(was, before, ChangedBy(items)) && SameOutside(was, before, Concerned(plan))
    ensures SameOutside(now, before, ChangedBy(items[i := p])) && SameOutside(now, before, Concerned(plan))
  {
    hide Lookup, ChangedBy;
    ChangedUpdate(items, i, p);
    assert Changed(p) <= FilesOf(p) <= Concerned(plan);
    forall x | x !in ChangedBy(items[i := p]) || x !in Concerned(plan) ensures SameAt(now, before, x) {
      assert SameAt(now, was, x) && SameAt(was, before, x);
    }
  }

  lemma EffectsNext(before: Files, plan: seq<PendingWrite>, i: nat)
    requires i < |plan|
    ensures Published(before, AllEffects(plan[..i+1])) == Published(Published(before, AllEffects(plan[..i])), Effects(plan[i]))
  {
    assert Map(Effects, plan[..i+1]) == Map(Effects, plan[..i]) + [Effects(plan[i])];
    ConcatAppend(Map(Effects, plan[..i]), Effects(plan[i]));
    PublishedThen(before, AllEffects(plan[..i]), Effects(plan[i]));
  }

  lemma PublishStep(was: Files, now: Files, before: Files, items: seq<PendingWrite>, plan: seq<PendingWrite>, i: nat, p: PendingWrite)
    requires Publishing(was, before, items, plan, i) && i < |items| && forall j :: 0 <= j < |plan| ==> Plain(plan[j]) == plan[j]
    requires Plain(p) == plan[i] && SameOutside(now, was, Changed(p)) && now == Published(was, Changes(p)) && Changes(p) <= Effects(plan[i])
    ensures SameOutside(now, before, ChangedBy(items[i := p])) && SameOutside(now, before, Concerned(plan))
    ensures AllChanges(items[i := p]) == AllEffects(plan[..i]) + Changes(p) <= AllEffects(plan)
    ensures Changes(p) == Effects(plan[i]) ==> Publishing(now, before, items[i := p], plan, i + 1)
  {
    hide SameOutside, ChangedBy, Concerned, Published, AllEffects, AllChanges, Changes, Effects;
    assert forall j :: i <= j < |items| ==> Plain(items[j]) == items[j];
    assert FilesOf(p) == FilesOf(plan[i]) && Changed(items[i]) == {};
    PublishOutside(was, now, before, items, plan, i, p);
    EffectsNext(before, plan, i);
    ChangesNext(items, i, p);
    EffectsPrefix(plan, i);
    hide Plain, FilesOf, Changed;
    PrefixInside(AllEffects(plan[..i]), Changes(p), Effects(plan[i]), AllEffects(plan));
  }

  lemma PrefixInside<T>(a: seq<T>, b: seq<T>, c: seq<T>, all: seq<T>)
    requires b <= c && a + c <= all
    ensures a + b <= all
  {}

  lemma EffectsPrefix(plan: seq<PendingWrite>, i: nat)
    requires i < |plan|
    ensures AllEffects(plan[..i+1]) == AllEffects(plan[..i]) + Effects(plan[i]) <= AllEffects(plan)
  {
    assert Map(Effects, plan[..i+1]) == Map(Effects, plan[..i]) + [Effects(plan[i])];
    ConcatAppend(Map(Effects, plan[..i]), Effects(plan[i]));
    assert Map(Effects, plan) == Map(Effects, plan[..i+1]) + Map(Effects, plan[i+1..]);
    ConcatBoth(Map(Effects, plan[..i+1]), Map(Effects, plan[i+1..]));
  }

  /** The change behind the first f is the first whose step fails; then the f are put back,
      the last one first. Only files whose own step fails in that are not as they should be. */
  ghost predicate TurnedBack(names: Names, now: Files, before: Files, effects: seq<Effect>, fails: nat -> bool, start: nat, f: nat, outcome: Outcome) {
    && f < |effects| && !FailedWithin(fails, start, start + f) && fails(start + f + 1)
    && TurnedBackTo(names, now, before, PathsOf(effects[..f]), fails, start + f + 1, outcome)
  }

  ghost predicate TurnedBackTo(names: Names, now: Files, before: Files, gone: seq<string>, fails: nat -> bool, start: nat, outcome: Outcome) {
    var goal, stuck := Settled(names, before, set x | x in gone), Stuck(Backwards(gone), fails, start);
    && SameOutside(now, goal, stuck)
    && match outcome
       case RolledBack => now == goal
       case RollbackFailed => stuck != {}
       case _ => false
  }

  /** What is left when an item fails. */
  method GiveUp(disk: Disk, items: seq<PendingWrite>, ghost plan: seq<PendingWrite>, ghost before: Files) returns (outcome: Outcome)
    requires |items| == |plan| && forall j :: 0 <= j < |items| ==> Plain(items[j]) == plan[j] && Restores(disk.names, before, plan[j])
    requires SameOutside(disk.files, before, ChangedBy(items)) && SameOutside(disk.files, before, Concerned(plan))
    modifies disk`files, disk`step
    ensures disk.step >= old(disk.step) && (outcome.RolledBack? || outcome.RollbackFailed?)
    ensures TurnedBackTo(disk.names, disk.files, before, PathsOf(AllChanges(items)), disk.fails, old(disk.step), outcome)
    ensures outcome.RollbackFailed? ==> FailedWithin(disk.fails, old(disk.step), disk.step)
    ensures outcome.RolledBack? ==> BackAgain(disk.names, disk.files, before, Concerned(plan))
    ensures SameOutside(disk.files, before, Concerned(plan))
  {
    hide SameOutside, Restores, RestoresTo, Settled, BackAgain, Concerned, ChangedBy, AllChanges, Stuck, PutBacks;
    ghost var goal, failed := Settled(disk.names, before, ChangedBy(items)), disk.step;
    ReadyToRollBack(disk.names, disk.files, before, items, plan);
    SettledIsBack(disk.names, before, ChangedBy(items), Concerned(plan));
    PutBacksAreChanges(items);
    var back := Rollback(disk, items, goal);
    SettledOutside(disk.names, disk.files, before, ChangedBy(items), Concerned(plan));
    outcome := if back then RolledBack else RollbackFailed;
    if !back { StuckMeans(PutBacks(items), disk.fails, failed, disk.step); }
  }

  /** One turn of the publishing loop; no outcome yet means that it goes on. */
  method PublishNext(disk: Disk, pending: seq<PendingWrite>, index: nat, ghost plan: seq<PendingWrite>, ghost before: Files, ghost start: nat)
    returns (outcome: Option<Outcome>, now: seq<PendingWrite>)
    requires index < |plan| == |pending| && Publishing(disk.files, before, pending, plan, index)
    requires forall i :: 0 <= i < |plan| ==> Plain(plan[i]) == plan[i] && Restores(disk.names, before, plan[i])
    requires disk.step == start + |AllEffects(plan[..index])| && !FailedWithin(disk.fails, start, disk.step)
    modifies disk`files, disk`step
    ensures outcome.None? ==> |now| == |plan| && Publishing(disk.files, before, now, plan, index + 1)
    ensures outcome.None? ==> disk.step == start + |AllEffects(plan[..index+1])| && !FailedWithin(disk.fails, start, disk.step)
    ensures outcome.Some? ==> outcome.value.RolledBack? || outcome.value.RollbackFailed?
    ensures outcome.Some? ==> exists f :: TurnedBack(disk.names, disk.files, before, AllEffects(plan), disk.fails, start, f, outcome.value)
    ensures outcome.Some? ==> FailedWithin(disk.fails, start, disk.step) && FailedWithin(disk.fails, start, start + |AllEffects(plan)|)
    ensures outcome.Some? && outcome.value.RollbackFailed? ==> TwoFailed(disk.fails, start, disk.step)
    ensures outcome.Some? && outcome.value.RolledBack? ==> BackAgain(disk.names, disk.files, before, Concerned(plan))
    ensures outcome.Some? ==> SameOutside(disk.files, before, Concerned(plan))
  {
    hide Publishing, SameOutside, Restores, BackAgain, Concerned, ChangedBy, AllEffects, Effects, AllChanges, Changes, Changed, Published, TurnedBack,
      TurnedBackTo, FailedWithin, TwoFailed, Plain;
    ghost var was, step := disk.files, disk.step;
    StillPlanned(was, before, pending, plan, index);
    var ok, item := PublishItem(disk, pending[index]);
    PublishStep(was, disk.files, before, pending, plan, index, item);
    now := pending[index := item];
    EffectsPrefix(plan, index);
    FineThen(disk.fails, start, step, step + |Changes(item)|);
    if ok { return None, now; }
    FewerChanges(AllEffects(plan[..index]), item, plan[index], AllEffects(plan), AllChanges(now));
    ghost var failed := disk.step;
    var given := GiveUp(disk, now, plan, before);
    outcome := Some(given);
    ItTurnsBack(disk.names, disk.files, before, AllEffects(plan), AllChanges(now), disk.fails, start, given);
    FailedTwice(disk.fails, start, failed, disk.step);
  }

  /** Publishes every item, or puts everything back. */
  method PublishAll(disk: Disk, plan: seq<PendingWrite>) returns (outcome: Outcome)
    requires forall i :: 0 <= i < |plan| ==> Plain(plan[i]) == plan[i] && Restores(disk.names, disk.files, plan[i])
    modifies disk`files, disk`step
    ensures disk.step >= old(disk.step) && !outcome.Refused?
    ensures outcome.Committed? <==> !FailedWithin(disk.fails, old(disk.step), old(disk.step) + |AllEffects(plan)|)
    ensures outcome.Committed? ==> disk.files == Published(old(disk.files), AllEffects(plan))
    ensures !outcome.Committed? ==>
      exists f :: TurnedBack(disk.names, disk.files, old(disk.files), AllEffects(plan), disk.fails, old(disk.step), f, outcome)
    ensures !outcome.Committed? ==> FailedWithin(disk.fails, old(disk.step), disk.step)
    ensures outcome.RollbackFailed? ==> TwoFailed(disk.fails, old(disk.step), disk.step)
    ensures outcome.RolledBack? ==> BackAgain(disk.names, disk.files, old(disk.files), Concerned(plan))
    ensures SameOutside(disk.files, old(disk.files), Concerned(plan))
  {
    ghost var before, start := disk.files, disk.step;
    var pending := plan;
    NothingChanged(plan);
    NoChanges(plan);
    assert plan[..0] == [];
    assert Publishing(disk.files, before, pending, plan, 0);
    hide Publishing, SameOutside, Restores, BackAgain, Concerned, AllEffects, Published, TurnedBack, FailedWithin, TwoFailed, Plain;
    NothingYet(disk.fails, start, plan);
    for index := 0 to |plan|
      invariant |pending| == |plan| && Publishing(disk.files, before, pending, plan, index)
      invariant disk.step == start + |AllEffects(plan[..index])| && !FailedWithin(disk.fails, start, disk.step)
    {
      var stopped;
      stopped, pending := PublishNext(disk, pending, index, plan, before, start);
      if stopped.Some? {
        ItMoved(disk.fails, start, disk.step);
        return stopped.value;
      }
    }
    AllPublished(disk.files, before, pending, plan);
    assert plan[..|plan|] == plan;
    return Committed;
  }

  lemma ItMoved(fails: nat -> bool, from: nat, to: nat)
    ensures FailedWithin(fails, from, to) ==> from < to
  {}

  lemma NothingYet(fails: nat -> bool, start: nat, plan: seq<PendingWrite>)
    ensures AllEffects(plan[..0]) == [] && !FailedWithin(fails, start, start)
  {}

  lemma ItTurnsBack(names: Names, now: Files, before: Files, effects: seq<Effect>, changes: seq<Effect>, fails: nat -> bool, start: nat, outcome: Outcome)
    requires changes < effects && !FailedWithin(fails, start, start + |changes|) && fails(start + |changes| + 1)
    requires TurnedBackTo(names, now, before, PathsOf(changes), fails, start + |changes| + 1, outcome)
    ensures TurnedBack(names, now, before, effects, fails, start, |changes|, outcome)
    ensures FailedWithin(fails, start, start + |effects|)
  {
    assert effects[..|changes|] == changes;
  }

  lemma FewerChanges(done: seq<Effect>, item: PendingWrite, planned: PendingWrite, all: seq<Effect>, changes: seq<Effect>)
    requires Changes(item) < Effects(planned) && done + Effects(planned) <= all && changes == done + Changes(item)
    ensures changes < all
  {
    hide Changes, Effects;
  }

  lemma StuckMeans(order: seq<string>, fails: nat -> bool, start: nat, end: nat)
    requires Stuck(order, fails, start) != {} && end == start + |order|
    ensures FailedWithin(fails, start, end)
  {
    var x :| x in Stuck(order, fails, start);
    var i :| 0 <= i < |order| && fails(start + 1 + i) && order[i] == x;
    assert start < start + 1 + i <= end;
  }

  lemma StillPlanned(now: Files, before: Files, items: seq<PendingWrite>, plan: seq<PendingWrite>, i: nat)
    requires Publishing(now, before, items, plan, i) && i < |plan|
    ensures items[i] == plan[i] && forall j :: 0 <= j < |items| ==> Plain(items[j]) == plan[j]
  {}

  lemma ReadyToRollBack(names: Names, now: Files, before: Files, items: seq<PendingWrite>, plan: seq<PendingWrite>)
    requires |items| == |plan| && forall j :: 0 <= j < |items| ==> Plain(items[j]) == plan[j] && Restores(names, before, plan[j])
    requires SameOutside(now, before, ChangedBy(items)) && SameOutside(now, before, Concerned(plan))
    ensures Concerned(items) == Concerned(plan) && ChangedBy(items) <= Concerned(plan)
    ensures forall j :: 0 <= j < |items| ==> RestoresTo(Settled(names, before, ChangedBy(items)), items[j])
    ensures SameOutside(now, Settled(names, before, ChangedBy(items)), ChangedBy(items))
    ensures SameOutside(now, Settled(names, before, ChangedBy(items)), Concerned(items))
  {
    assert Concerned(items) == Concerned(plan) by {
      hide Restores, Settled, SameOutside;
      assert forall j :: 0 <= j < |items| ==> FilesOf(items[j]) == FilesOf(plan[j]);
    }
    ChangedIsConcerned(items);
    hide Concerned, ChangedBy, Settled, SameOutside, RestoresTo, Restores;
    forall j | 0 <= j < |items| ensures RestoresTo(Settled(names, before, ChangedBy(items)), items[j]) {
      ChangedMember(items, j);
      ItemRestores(names, before, items[j], plan[j], ChangedBy(items));
    }
    OutsideSettled(names, now, before, ChangedBy(items), Concerned(plan));
  }

  lemma ItemRestores(names: Names, before: Files, item: PendingWrite, planned: PendingWrite, changed: set<string>)
    requires Plain(item) == planned && Restores(names, before, planned) && Changed(item) <= changed
    ensures RestoresTo(Settled(names, before, changed), item)
  {
    hide Settled;
  }

  lemma OutsideSettled(names: Names, now: Files, before: Files, changed: set<string>, touched: set<string>)
    requires SameOutside(now, before, changed) && changed <= touched
    ensures SameOutside(now, Settled(names, before, changed), changed) && SameOutside(now, Settled(names, before, changed), touched)
  {
    var goal := Settled(names, before, changed);
    hide Settled;
    forall x | x !in changed ensures SameAt(now, goal, x) { assert SameAt(now, before, x); }
  }

  lemma {:induction false} ChangedIsConcerned(items: seq<PendingWrite>)
    ensures ChangedBy(items) <= Concerned(items)
  {
    if items != [] {
      var front, last := items[..|items|-1], items[|items|-1];
      ChangedIsConcerned(front);
      forall x | x in Concerned(front) ensures x in Concerned(items) {
        var i :| 0 <= i < |front| && x in FilesOf(front[i]);
        assert x in FilesOf(items[i]);
      }
      assert Changed(last) <= FilesOf(items[|items|-1]);
    }
  }

  lemma SettledOutside(names: Names, now: Files, before: Files, changed: set<string>, touched: set<string>)
    requires changed <= touched
    ensures SameOutside(now, Settled(names, before, changed), touched) ==> SameOutside(now, before, touched)
  {
    var goal := Settled(names, before, changed);
    if SameOutside(now, goal, touched) {
      forall x | x !in touched ensures SameAt(now, before, x) { assert SameAt(now, goal, x); }
    }
  }

  lemma AllPublished(now: Files, before: Files, items: seq<PendingWrite>, plan: seq<PendingWrite>)
    requires Publishing(now, before, items, plan, |plan|)
    ensures now == Published(before, AllEffects(plan)) && SameOutside(now, before, Concerned(plan))
  {
    assert plan[..|plan|] == plan;
  }

  // ---- What a commit leaves --------------------------------------------------------------------

  /** What success should mean for one write: the target holds its new contents with the
      old permissions, and a backup that was asked for holds what the target held. */
  ghost predicate Written(now: Files, before: Files, newMode: nat, names: Names, w: DocumentWrite) {
    var target, backup := names.place(w.path), Backup(names, w);
    var original := Read(names, before, target);
    && Lookup(now, target) == Some(Regular(File(w.contents, if original.Some? then original.value.permissions else newMode)))
    && (backup.Some? && original.Some? ==>
          var previous := Read(names, before, backup.value);
          Lookup(now, backup.value)
            == Some(Regular(File(original.value.bytes, if previous.Some? then previous.value.permissions else original.value.permissions))))
  }

  ghost predicate AllWritten(now: Files, before: Files, newMode: nat, names: Names, writes: seq<DocumentWrite>) {
    forall i :: 0 <= i < |writes| ==> Written(now, before, newMode, names, writes[i])
  }

  /** No two changes want different things of one file. */
  ghost predicate Agree(effects: seq<Effect>) {
    forall k, l :: 0 <= k < |effects| && 0 <= l < |effects| && effects[k].0 == effects[l].0 ==> effects[k].1 == effects[l].1
  }

  ghost predicate AllShow(files: Files, effects: seq<Effect>) {
    forall k :: 0 <= k < |effects| ==> Lookup(files, effects[k].0) == Some(Regular(effects[k].1))
  }

  lemma {:induction false} LastShows(files: Files, effects: seq<Effect>, k: nat) returns (l: nat)
    requires k < |effects|
    ensures l < |effects| && effects[l].0 == effects[k].0 && Lookup(Published(files, effects), effects[k].0) == Some(Regular(effects[l].1))
  {
    if effects[|effects|-1].0 == effects[k].0 {
      l := |effects| - 1;
    } else {
      l := LastShows(files, effects[..|effects|-1], k);
    }
  }

  /** Everything published is there at the end exactly when no two changes disagree. */
  lemma AllShowIffAgree(files: Files, effects: seq<Effect>)
    ensures AllShow(Published(files, effects), effects) <==> Agree(effects)
  {
    forall k | 0 <= k < |effects| ensures Agree(effects) ==> Lookup(Published(files, effects), effects[k].0) == Some(Regular(effects[k].1)) {
      var l := LastShows(files, effects, k);
    }
  }

  lemma {:induction false} EffectOf(items: seq<PendingWrite>, e: Effect)
    ensures e in AllEffects(items) <==> exists i :: 0 <= i < |items| && e in Effects(items[i])
  {
    if items != [] {
      var rest := items[1..];
      EffectOf(rest, e);
      assert Map(Effects, items)[1..] == Map(Effects, rest);
      assert AllEffects(items) == Effects(items[0]) + AllEffects(rest);
      if e in AllEffects(rest) {
        var i :| 0 <= i < |rest| && e in Effects(rest[i]);
        assert items[i+1] == rest[i];
      }
      forall i | 0 <= i < |items| && e in Effects(items[i]) ensures e in AllEffects(items) {
        if i > 0 { assert rest[i-1] == items[i]; }
      }
    }
  }

  /** An item shows when its write is written. */
  lemma ShowsWritten(now: Files, before: Files, newMode: nat, names: Names, w: DocumentWrite)
    ensures var p := PlanOf(before, newMode, names, w);
      (forall e :: e in Effects(p) ==> Lookup(now, e.0) == Some(Regular(e.1))) <==> Written(now, before, newMode, names, w)
  {
    var p := PlanOf(before, newMode, names, w);
    assert (p.path, p.replacement) in Effects(p);
    if p.backup.Some? { assert (p.backup.value.path, p.backup.value.replacement) in Effects(p); }
  }

  lemma ShowsAllWritten(now: Files, before: Files, newMode: nat, names: Names, writes: seq<DocumentWrite>)
    ensures AllShow(now, AllEffects(Plan(before, newMode, names, writes))) <==> AllWritten(now, before, newMode, names, writes)
  {
    hide Written, Effects, AllEffects, PlanOf;
    var plan := Plan(before, newMode, names, writes);
    var effects := AllEffects(plan);
    if AllShow(now, effects) {
      forall i | 0 <= i < |writes| ensures Written(now, before, newMode, names, writes[i]) {
        forall e | e in Effects(plan[i]) ensures Lookup(now, e.0) == Some(Regular(e.1)) {
          EffectOf(plan, e);
          var k :| 0 <= k < |effects| && effects[k] == e;
        }
        ShowsWritten(now, before, newMode, names, writes[i]);
      }
    }
    if AllWritten(now, before, newMode, names, writes) {
      forall k | 0 <= k < |effects| ensures Lookup(now, effects[k].0) == Some(Regular(effects[k].1)) {
        EffectOf(plan, effects[k]);
        var i :| 0 <= i < |plan| && effects[k] in Effects(plan[i]);
        ShowsWritten(now, before, newMode, names, writes[i]);
      }
    }
  }

  // ---- When the paths are different places --------------------------------------------------------

  lemma {:induction false} BackupAt(writes: seq<DocumentWrite>, i: nat) returns (k: nat)
    requires i < |writes| && writes[i].backup
    ensures k < |BackupPaths(writes)| && BackupPaths(writes)[k] == BackupPath(writes[i].path)
    ensures BackupPaths(writes[..i]) == BackupPaths(writes)[..k]
  {
    if i == |writes| - 1 {
      k := |BackupPaths(writes[..i])|;
    } else {
      k := BackupAt(writes[..|writes|-1], i);
      assert writes[..|writes|-1][..i] == writes[..i];
    }
  }

  /** Later backups stand behind earlier ones. */
  lemma BackupsDiffer(names: Names, writes: seq<DocumentWrite>, i: nat, j: nat)
    requires PlacesApart(names, writes) && i < j < |writes| && writes[i].backup && writes[j].backup
    ensures names.place(BackupPath(writes[i].path)) != names.place(BackupPath(writes[j].path))
  {
    var k := BackupAt(writes, j);
    assert writes[..j][i] == writes[i];
    var l := BackupAt(writes[..j], i);
    var targets, backups, all := TargetPaths(writes), BackupPaths(writes), Map(names.place, CheckedPaths(writes));
    assert backups[..k][l] == backups[l];
    assert all[|targets| + k] == names.place(backups[k]) && all[|targets| + l] == names.place(backups[l]);
  }

  lemma TargetAndBackupDiffer(names: Names, writes: seq<DocumentWrite>, i: nat, j: nat)
    requires PlacesApart(names, writes) && i < |writes| && j < |writes| && writes[j].backup
    ensures names.place(writes[i].path) != names.place(BackupPath(writes[j].path))
  {
    var k := BackupAt(writes, j);
    var all := Map(names.place, CheckedPaths(writes));
    assert all[i] == names.place(writes[i].path) && all[|writes| + k] == names.place(BackupPath(writes[j].path));
  }

  lemma TargetsDiffer(names: Names, writes: seq<DocumentWrite>, i: nat, j: nat)
    requires PlacesApart(names, writes) && i < j < |writes|
    ensures names.place(writes[i].path) != names.place(writes[j].path)
  {
    var all := Map(names.place, CheckedPaths(writes));
    assert all[i] == names.place(writes[i].path) && all[j] == names.place(writes[j].path);
  }

  /** Writes to different places never plan two changes of one. */
  lemma PlanApart(files: Files, newMode: nat, names: Names, writes: seq<DocumentWrite>)
    requires PlacesApart(names, writes)
    ensures Agree(AllEffects(Plan(files, newMode, names, writes)))
  {
    var plan := Plan(files, newMode, names, writes);
    var effects := AllEffects(plan);
    hide PlacesApart, AllEffects;
    forall k, l | 0 <= k < |effects| && 0 <= l < |effects| && effects[k].0 == effects[l].0 ensures effects[k].1 == effects[l].1 {
      EffectOf(plan, effects[k]);
      EffectOf(plan, effects[l]);
      var i :| 0 <= i < |plan| && effects[k] in Effects(plan[i]);
      var j :| 0 <= j < |plan| && effects[l] in Effects(plan[j]);
      if i < j { ItemsApart(files, newMode, names, writes, i, j, effects[k], effects[l]); }
      else if j < i { ItemsApart(files, newMode, names, writes, j, i, effects[l], effects[k]); }
      else if writes[i].backup { TargetAndBackupDiffer(names, writes, i, i); }
    }
  }

  lemma ItemsApart(files: Files, newMode: nat, names: Names, writes: seq<DocumentWrite>, i: nat, j: nat, a: Effect, b: Effect)
    requires PlacesApart(names, writes) && i < j < |writes|
    requires a in Effects(PlanOf(files, newMode, names, writes[i])) && b in Effects(PlanOf(files, newMode, names, writes[j]))
    ensures a.0 != b.0
  {
    TargetsDiffer(names, writes, i, j);
    if writes[i].backup { TargetAndBackupDiffer(names, writes, j, i); }
    if writes[j].backup { TargetAndBackupDiffer(names, writes, i, j); }
    if writes[i].backup && writes[j].backup { BackupsDiffer(names, writes, i, j); }
  }

  lemma PlanStaged(files: Files, newMode: nat, names: Names, writes: seq<DocumentWrite>)
    ensures forall i :: 0 <= i < |writes| ==>
      var p := Plan(files, newMode, names, writes)[i]; Plain(p) == p && Restores(names, files, p)
  {}

  // ---- The whole commit ------------------------------------------------------------------------

  /** The files a commit may touch: the targets, and the backups of targets that exist. */
  ghost function Touched(files: Files, names: Names, writes: seq<DocumentWrite>): set<string> {
    set i, x | 0 <= i < |writes| && x in TouchedBy(files, names, writes[i]) :: x
  }

  function TouchedBy(files: Files, names: Names, w: DocumentWrite): set<string> {
    var target, backup := names.place(w.path), Backup(names, w);
    {target} + if backup.Some? && Read(names, files, target).Some? then {backup.value} else {}
  }

  lemma PlanTouches(files: Files, newMode: nat, names: Names, writes: seq<DocumentWrite>)
    ensures Concerned(Plan(files, newMode, names, writes)) == Touched(files, names, writes)
  {
    var plan := Plan(files, newMode, names, writes);
    forall i | 0 <= i < |writes| ensures FilesOf(plan[i]) == TouchedBy(files, names, writes[i]) {}
  }

  /** commit_documents_with: all or nothing. Unless putting something back fails itself, a
      commit that does not succeed leaves every file as it was, but that a link among the
      targets may have become the file it led to. One that succeeds has made all its
      changes, and every write is written exactly when no two of the changes disagree about
      a place, as is the case when the places are different. Without faults it succeeds
      exactly when the identities are different. No other file is touched either way. */
  method CommitDocuments(disk: Disk, writes: seq<DocumentWrite>) returns (outcome: Outcome)
    modifies disk`files, disk`step
    ensures !Apart(disk.names, old(disk.files), writes) ==> outcome.Refused?
    ensures outcome.Refused? ==> !Apart(disk.names, old(disk.files), writes) || FailedWithin(disk.fails, old(disk.step), disk.step)
    ensures outcome.RolledBack? ==> FailedWithin(disk.fails, old(disk.step), disk.step)
    ensures outcome.RollbackFailed? ==> TwoFailed(disk.fails, old(disk.step), disk.step)
    ensures Quiet(disk) ==> outcome == if Apart(disk.names, old(disk.files), writes) then Committed else Refused
    ensures outcome.Refused? ==> disk.files == old(disk.files)
    ensures outcome.RolledBack? || outcome.RollbackFailed? ==>
      exists start, f :: old(disk.step) <= start
        && TurnedBack(disk.names, disk.files, old(disk.files), AllEffects(Plan(old(disk.files), disk.newMode, disk.names, writes)), disk.fails, start, f, outcome)
    ensures outcome.RolledBack? ==> BackAgain(disk.names, disk.files, old(disk.files), Touched(old(disk.files), disk.names, writes))
    ensures outcome.RolledBack? && NoLinks(old(disk.files), Touched(old(disk.files), disk.names, writes)) ==> disk.files == old(disk.files)
    ensures outcome.Committed? ==>
      (AllWritten(disk.files, old(disk.files), disk.newMode, disk.names, writes)
       <==> Agree(AllEffects(Plan(old(disk.files), disk.newMode, disk.names, writes))))
    ensures outcome.Committed? && PlacesApart(disk.names, writes) ==>
      AllWritten(disk.files, old(disk.files), disk.newMode, disk.names, writes)
    ensures outcome.Committed? ==> disk.files == Published(old(disk.files), AllEffects(Plan(old(disk.files), disk.newMode, disk.names, writes)))
    ensures SameOutside(disk.files, old(disk.files), Touched(old(disk.files), disk.names, writes))
  {
    hide Apart, AllWritten, PlacesApart, Touched, Restores, Concerned, AllEffects, Published, Agree, SameOutside, BackAgain, NoLinks, FailedWithin, TwoFailed, TurnedBack;
    ghost var files, start := disk.files, disk.step;
    NothingElse(files, disk.names, writes);
    var valid := ValidateDocumentWrites(disk, writes);
    QuietIsFine(disk, start, disk.step);
    if !valid { return Refused; }
    ghost var plan := Plan(files, disk.newMode, disk.names, writes);
    var pending: seq<PendingWrite> := [];
    for i := 0 to |writes|
      invariant disk.files == files && pending == plan[..i] && disk.step >= start
    {
      ghost var step := disk.step;
      var item := StageWrite(disk, disk.names.place(writes[i].path), Backup(disk.names, writes[i]), writes[i].contents);
      if item.None? {
        FailedLater(disk.fails, start, step, disk.step);
        QuietIsFine(disk, start, disk.step);
        return Refused;
      }
      assert plan[..i+1] == plan[..i] + [plan[i]];
      pending := pending + [item.value];
    }
    assert plan[..|plan|] == plan;
    PlanStaged(files, disk.newMode, disk.names, writes);
    PlanTouches(files, disk.newMode, disk.names, writes);
    ghost var step := disk.step;
    outcome := PublishAll(disk, pending);
    if FailedWithin(disk.fails, step, disk.step) { FailedLater(disk.fails, start, step, disk.step); }
    QuietIsFine(disk, step, step + |AllEffects(plan)|);
    AllShowIffAgree(files, AllEffects(plan));
    ShowsAllWritten(disk.files, files, disk.newMode, disk.names, writes);
    if PlacesApart(disk.names, writes) { PlanApart(files, disk.newMode, disk.names, writes); }
    ghost var touched := Touched(files, disk.names, writes);
    if outcome.RolledBack? && NoLinks(files, touched) { BackWithoutLinks(disk.names, disk.files, files, touched); }
  }

  lemma QuietIsFine(disk: Disk, from: nat, to: nat)
    ensures Quiet(disk) ==> !FailedWithin(disk.fails, from, to)
  {}

  lemma NothingElse(files: Files, names: Names, writes: seq<DocumentWrite>)
    ensures SameOutside(files, files, Touched(files, names, writes))
  {}

  // ---- Two spellings of one missing file -------------------------------------------------------

  function Respelled(): Names { Names(p => if p == "/d/x/../new" then "/d/new" else p, p => p, p => "/d/new") }

  const FIRST := DocumentWrite("/d/new", [1], false)
  const SECOND := DocumentWrite("/d/x/../new", [2], false)

  lemma RespelledPaths()
    ensures CheckedPaths([FIRST, SECOND]) == ["/d/new", "/d/x/../new"] && "/d/new" != "/d/x/../new"
  {
    var writes := [FIRST, SECOND];
    assert "/d/new"[3] != "/d/x/../new"[3];
    assert writes[..1] == [FIRST] && [FIRST][..0] == [];
    assert BackupPaths([]) == [];
    assert BackupPaths([FIRST]) == [];
    assert BackupPaths(writes) == BackupPaths([FIRST]) + [];
  }

  lemma NewFileEffect(newMode: nat, names: Names, w: DocumentWrite)
    requires !w.backup
    ensures Effects(PlanOf(map[], newMode, names, w)) == [(names.place(w.path), File(w.contents, newMode))]
  {
    assert [] + [(names.place(w.path), File(w.contents, newMode))] == [(names.place(w.path), File(w.contents, newMode))];
  }

  lemma TwoEffects(newMode: nat)
    ensures var path := "/d/new";
      AllEffects(Plan(map[], newMode, Respelled(), [FIRST, SECOND])) == [(path, File([1], newMode)), (path, File([2], newMode))]
  {
    var plan := Plan(map[], newMode, Respelled(), [FIRST, SECOND]);
    NewFileEffect(newMode, Respelled(), FIRST);
    NewFileEffect(newMode, Respelled(), SECOND);
    hide PlanOf, Effects;
    var a, b := Effects(plan[0]), Effects(plan[1]);
    assert Map(Effects, plan) == [a, b];
    assert [a, b][1..] == [b] && [b][1..] == [];
    assert Concat([b]) == b + Concat([]);
  }

  /** For instance: two spellings of a file that is not there yet pass the validation, and
      without any fault the commit reports success with the first document lost. */
  lemma SpellingsOfOneMissingFile(newMode: nat)
    ensures var names, writes := Respelled(), [FIRST, SECOND];
      && Lawful(names) && Apart(names, map[], writes) && !FilesApart(names, map[], writes)
      && var now := Published(map[], AllEffects(Plan(map[], newMode, names, writes)));
      && now == map["/d/new" := Regular(File([2], newMode))] && !Written(now, map[], newMode, names, FIRST)
  {
    var names, writes := Respelled(), [FIRST, SECOND];
    var paths := CheckedPaths(writes);
    RespelledPaths();
    TwoEffects(newMode);
    hide AllEffects, Plan, CheckedPaths;
    assert Identities(names, map[], paths) == paths;
    assert Map(names.place, paths)[0] == Map(names.place, paths)[1];
    var first, second: Effect := ("/d/new", File([1], newMode)), ("/d/new", File([2], newMode));
    assert [first, second][..1] == [first] && [first][..0] == [];
    assert Published(map[], [first]) == map["/d/new" := Regular(File([1], newMode))];
    assert Published(map[], [first, second]) == map["/d/new" := Regular(File([2], newMode))];
  }
}
