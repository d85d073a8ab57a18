/** create_pack without force: one process reserves the index, publishes the pack, then
    publishes the index; any number of processes, each of which may die at any step. */
module PackPublication {
  import opened AtomicFile
  import opened ByteStrings

  type Process = nat
  datatype Plan = Plan(pack: string, packBytes: Bytes, indexBytes: Bytes)

  function IndexCreator(p: Process): Creator { Creator(p, 0) }
  function PackCreator(p: Process): Creator { Creator(p, 1) }
  function PackName(pack: string): Name { Dest(pack + ".pack") }
  function IndexName(pack: string): Name { Dest(pack + ".pack.idx") }

  function JobsOf(plans: map<Process, Plan>): (jobs: Jobs)
    ensures GoodJobs(jobs)
    ensures forall c :: c in jobs ==> c.process in plans && c.call <= 1
    ensures forall p :: p in plans ==> IndexCreator(p) in jobs && jobs[IndexCreator(p)] == Job(IndexName(plans[p].pack), plans[p].indexBytes)
    ensures forall p :: p in plans ==> PackCreator(p) in jobs && jobs[PackCreator(p)] == Job(PackName(plans[p].pack), plans[p].packBytes)
  {
    var all := set p, call | p in plans && call in {0, 1} :: Creator(p, call);
    assert forall p :: p in plans ==> Creator(p, 0) in all && Creator(p, 1) in all;
    map c | c in all ::
      var plan := plans[c.process];
      if c.call == 0 then Job(IndexName(plan.pack), plan.indexBytes) else Job(PackName(plan.pack), plan.packBytes)
  }

  /** The file protocol plus the processes that have passed the first check on the pack. */
  datatype World = World(files: State, checked: set<Process>)

  ghost predicate HasContent(s: State, n: Name) {
    n in s.fs.names && s.fs.names[n] in s.fs.inodes && ContentOf(s, n) != []
  }

  predicate Gone(p: Phase) { p.Published? || p.Stopped? }

  // ---- Steps of one process ---------------------------------------------------------

  ghost predicate CheckPack(plans: map<Process, Plan>, w: World, w': World, p: Process) {
    && p in plans && IndexCreator(p) in w.files.phase && w.files.phase[IndexCreator(p)].Idle?
    && PackCreator(p) in w.files.phase && w.files.phase[PackCreator(p)].Idle?
    && p !in w.checked
    && !HasContent(w.files, PackName(plans[p].pack))
    && w' == w.(checked := w.checked + {p})
  }

  /** One step of AtomicCreateFile::new on the index. */
  ghost predicate ReserveIndex(jobs: Jobs, w: World, w': World, p: Process) {
    var c := IndexCreator(p);
    && p in w.checked && Moves(jobs, w.files, w'.files, c) && c in w.files.phase && c in w'.files.phase
    && !w.files.phase[c].Writing? && !w'.files.phase[c].Stopped?
    && w'.checked == w.checked
  }

  /** One step of reserving, filling and publishing the pack, with the index reserved. */
  ghost predicate PublishPack(jobs: Jobs, w: World, w': World, p: Process) {
    var c := PackCreator(p);
    && IndexCreator(p) in w.files.phase && w.files.phase[IndexCreator(p)].Writing?
    && Moves(jobs, w.files, w'.files, c) && c in w'.files.phase && !w'.files.phase[c].Stopped?
    && w'.checked == w.checked
  }

  /** One step of filling and publishing the index, with the pack published. */
  ghost predicate PublishIndex(jobs: Jobs, w: World, w': World, p: Process) {
    var c := IndexCreator(p);
    && PackCreator(p) in w.files.phase && w.files.phase[PackCreator(p)].Published?
    && c in w.files.phase && w.files.phase[c].Writing?
    && Moves(jobs, w.files, w'.files, c) && c in w'.files.phase && !w'.files.phase[c].Stopped?
    && w'.checked == w.checked
  }

  ghost predicate StopsOne(jobs: Jobs, s: State, s': State, c: Creator) {
    c in s.phase && c in jobs && if Gone(s.phase[c]) then s' == s else StopStep(s, s', c)
  }

  /** An error return or a crash ends both creations of the process. */
  ghost predicate Die(jobs: Jobs, w: World, w': World, p: Process) {
    && (exists mid :: StopsOne(jobs, w.files, mid, IndexCreator(p)) && StopsOne(jobs, mid, w'.files, PackCreator(p)))
    && w'.checked == w.checked
  }

  ghost predicate Step(plans: map<Process, Plan>, w: World, w': World, p: Process) {
    && p in plans
    && (|| CheckPack(plans, w, w', p)
        || ReserveIndex(JobsOf(plans), w, w', p)
        || PublishPack(JobsOf(plans), w, w', p)
        || PublishIndex(JobsOf(plans), w, w', p)
        || Die(JobsOf(plans), w, w', p))
  }

  /** Anybody may delete a temporary file that is not locked. */
  ghost predicate Sweep(w: World, w': World) { (exists r :: SweepStep(w.files, w'.files, r)) && w'.checked == w.checked }

  ghost predicate NextWorld(plans: map<Process, Plan>, w: World, w': World) { (exists p :: Step(plans, w, w', p)) || Sweep(w, w') }

  ghost predicate Start(plans: map<Process, Plan>, w: World) {
    Init(JobsOf(plans), w.files) && w.checked == {}
  }

  ghost predicate History(plans: map<Process, Plan>, run: seq<World>) {
    && |run| > 0 && Start(plans, run[0])
    && forall k :: 0 <= k < |run| - 1 ==> NextWorld(plans, run[k], run[k + 1])
  }

  // ---- Invariant --------------------------------------------------------------------

  /** The order of the two publications, process by process. */
  ghost predicate Ordered(s: State, p: Process) {
    && IndexCreator(p) in s.phase && PackCreator(p) in s.phase
    && (!s.phase[PackCreator(p)].Idle? ==> s.phase[IndexCreator(p)].Writing? || Gone(s.phase[IndexCreator(p)]))
    && (s.phase[IndexCreator(p)].Published? ==> s.phase[PackCreator(p)].Published?)
  }

  ghost predicate WorldInv(plans: map<Process, Plan>, w: World) {
    && Inv(JobsOf(plans), w.files)
    && forall p :: p in plans ==> Ordered(w.files, p)
  }

  lemma OthersKeepPhase(jobs: Jobs, s: State, s': State, c: Creator)
    requires Moves(jobs, s, s', c)
    ensures s'.phase.Keys == s.phase.Keys && forall d :: d in s.phase && d != c ==> s'.phase[d] == s.phase[d]
  {}

  lemma StopsKeep(jobs: Jobs, s: State, s': State, c: Creator)
    requires Inv(jobs, s) && StopsOne(jobs, s, s', c)
    ensures Inv(jobs, s') && s'.phase.Keys == s.phase.Keys && c in s'.phase && Gone(s'.phase[c])
    ensures forall d :: d in s.phase && d != c ==> s'.phase[d] == s.phase[d]
    ensures Gone(s.phase[c]) ==> s' == s
    ensures s'.fs.names == s.fs.names && s'.fs.inodes.Keys == s.fs.inodes.Keys
    ensures forall i :: i in s.fs.inodes ==> s'.fs.inodes[i].content == s.fs.inodes[i].content
    ensures s'.phase[c].Published? ==> s'.phase[c] == s.phase[c]
  {
    if !Gone(s.phase[c]) { StopKeeps(jobs, s, s', c); }
    hide Inv;
  }

  lemma StopsKeepPhases(jobs: Jobs, s: State, s': State, c: Creator)
    requires Inv(jobs, s) && StopsOne(jobs, s, s', c)
    ensures Inv(jobs, s') && c in s.phase
    ensures (s'.phase == s.phase || s'.phase == s.phase[c := Stopped]) && Gone(s'.phase[c])
    ensures s.phase[c].Published? ==> s'.phase == s.phase
  {
    StopsKeep(jobs, s, s', c);
    hide Inv;
  }

  lemma DieKeeps(plans: map<Process, Plan>, w: World, w': World, p: Process)
    requires WorldInv(plans, w) && p in plans && Die(JobsOf(plans), w, w', p)
    ensures WorldInv(plans, w')
  {
    hide Inv, StopsOne, JobsOf;
    var jobs := JobsOf(plans);
    var mid :| StopsOne(jobs, w.files, mid, IndexCreator(p)) && StopsOne(jobs, mid, w'.files, PackCreator(p));
    StopsKeepPhases(jobs, w.files, mid, IndexCreator(p));
    StopsKeepPhases(jobs, mid, w'.files, PackCreator(p));
    forall q | q in plans ensures Ordered(w'.files, q) { assert Ordered(w.files, q); }
  }

  lemma PublishPackKeeps(plans: map<Process, Plan>, w: World, w': World, p: Process)
    requires WorldInv(plans, w) && p in plans && PublishPack(JobsOf(plans), w, w', p)
    ensures WorldInv(plans, w')
  {
    hide Inv, Moves;
    MovesKeep(JobsOf(plans), w.files, w'.files, PackCreator(p));
    OthersKeepPhase(JobsOf(plans), w.files, w'.files, PackCreator(p));
  }

  lemma IndexMovesKeep(plans: map<Process, Plan>, w: World, w': World, p: Process)
    requires WorldInv(plans, w) && p in plans
    requires ReserveIndex(JobsOf(plans), w, w', p) || PublishIndex(JobsOf(plans), w, w', p)
    ensures WorldInv(plans, w')
  {
    hide Inv, Moves, JobsOf;
    JobsOfFacts(plans, p);
    MovesKeep(JobsOf(plans), w.files, w'.files, IndexCreator(p));
    OthersKeepPhase(JobsOf(plans), w.files, w'.files, IndexCreator(p));
    OnlyWritersPublish(JobsOf(plans), w.files, w'.files, IndexCreator(p));
  }

  lemma StepKeeps(plans: map<Process, Plan>, w: World, w': World, p: Process)
    requires WorldInv(plans, w) && Step(plans, w, w', p)
    ensures WorldInv(plans, w')
  {
    hide WorldInv, Die, PublishPack, ReserveIndex, PublishIndex;
    if CheckPack(plans, w, w', p) { CheckKeeps(plans, w, w', p); }
    else if Die(JobsOf(plans), w, w', p) { DieKeeps(plans, w, w', p); }
    else if PublishPack(JobsOf(plans), w, w', p) { PublishPackKeeps(plans, w, w', p); }
    else { IndexMovesKeep(plans, w, w', p); }
  }

  lemma CheckKeeps(plans: map<Process, Plan>, w: World, w': World, p: Process)
    requires WorldInv(plans, w) && CheckPack(plans, w, w', p)
    ensures WorldInv(plans, w')
  {}

  /** Where a creator can be after one step. */
  lemma OnlyWritersPublish(jobs: Jobs, s: State, s': State, c: Creator)
    requires Moves(jobs, s, s', c)
    ensures c in s.phase && c in s'.phase && !Gone(s.phase[c]) && !s'.phase[c].Idle?
    ensures s'.phase[c].Published? ==> s.phase[c].Writing?
    ensures s.phase[c].Writing? ==> s'.phase[c].Writing? || Gone(s'.phase[c])
  {}

  lemma NextWorldKeeps(plans: map<Process, Plan>, w: World, w': World)
    requires WorldInv(plans, w) && NextWorld(plans, w, w')
    ensures WorldInv(plans, w')
  {
    hide Inv, Step, SweepStep, JobsOf;
    if p :| Step(plans, w, w', p) {
      StepKeeps(plans, w, w', p);
    } else {
      var r :| SweepStep(w.files, w'.files, r);
      SweepKeeps(JobsOf(plans), w.files, w'.files, r);
      SweepIsHarmless(JobsOf(plans), w.files, w'.files, r);
      forall q | q in plans ensures Ordered(w'.files, q) { assert Ordered(w.files, q); }
    }
  }

  lemma {:induction false} AlwaysWorldInv(plans: map<Process, Plan>, run: seq<World>, k: nat)
    requires History(plans, run) && k < |run|
    ensures WorldInv(plans, run[k])
  {
    hide Inv, Step;
    if k == 0 {
      InitInv(JobsOf(plans), run[0].files);
      StartOrdered(plans, run[0]);
    } else {
      AlwaysWorldInv(plans, run, k - 1);
      assert NextWorld(plans, run[k-1], run[(k-1)+1]);
      NextWorldKeeps(plans, run[k-1], run[k]);
    }
  }

  lemma StartOrdered(plans: map<Process, Plan>, w: World)
    requires Start(plans, w)
    ensures forall p :: p in plans ==> Ordered(w.files, p)
  {}

  // ---- From processes to the file protocol ------------------------------------------

  /** Every process step is at most two steps of the file protocol. */
  lemma StepIsMoves(plans: map<Process, Plan>, w: World, w': World, p: Process) returns (path: seq<State>)
    requires Step(plans, w, w', p)
    ensures 1 <= |path| && path[0] == w.files && path[|path|-1] == w'.files
    ensures forall k :: 0 <= k < |path| - 1 ==> Next(JobsOf(plans), path[k], path[k+1])
  {
    hide Moves, StopStep, JobsOf;
    var jobs := JobsOf(plans);
    if CheckPack(plans, w, w', p) {
      path := [w.files];
    } else if Die(jobs, w, w', p) {
      var mid :| StopsOne(jobs, w.files, mid, IndexCreator(p)) && StopsOne(jobs, mid, w'.files, PackCreator(p));
      var first := StopIsMove(jobs, w.files, mid, IndexCreator(p));
      var second := StopIsMove(jobs, mid, w'.files, PackCreator(p));
      path := first + second[1..];
      forall k | 0 <= k < |path| - 1 ensures Next(jobs, path[k], path[k+1]) {
        if k + 1 >= |first| { assert Next(jobs, second[k + 1 - |first|], second[(k + 1 - |first|) + 1]); }
      }
    } else {
      path := [w.files, w'.files];
    }
  }

  lemma NextWorldIsMoves(plans: map<Process, Plan>, w: World, w': World) returns (path: seq<State>)
    requires NextWorld(plans, w, w')
    ensures 1 <= |path| && path[0] == w.files && path[|path|-1] == w'.files
    ensures forall k :: 0 <= k < |path| - 1 ==> Next(JobsOf(plans), path[k], path[k+1])
  {
    hide Step, SweepStep, JobsOf, Moves;
    if p :| Step(plans, w, w', p) { path := StepIsMoves(plans, w, w', p); } else { path := [w.files, w'.files]; }
  }

  lemma StopIsMove(jobs: Jobs, s: State, s': State, c: Creator) returns (path: seq<State>)
    requires StopsOne(jobs, s, s', c)
    ensures 1 <= |path| <= 2 && path[0] == s && path[|path|-1] == s'
    ensures forall k :: 0 <= k < |path| - 1 ==> Next(jobs, path[k], path[k+1])
  {
    if Gone(s.phase[c]) { path := [s]; } else {
      path := [s, s'];
      assert Moves(jobs, s, s', c);
    }
  }

  /** A non-empty file stays as it is over any number of file-protocol steps. */
  lemma {:induction false} ContentStays(jobs: Jobs, path: seq<State>, n: Name)
    requires |path| > 0 && Inv(jobs, path[0]) && n.Dest? && HasContent(path[0], n)
    requires forall k :: 0 <= k < |path| - 1 ==> Next(jobs, path[k], path[k+1])
    ensures HasContent(path[|path|-1], n) && ContentOf(path[|path|-1], n) == ContentOf(path[0], n)
    decreases |path|
  {
    hide Inv, Next;
    if |path| > 1 {
      assert Next(jobs, path[0], path[0+1]);
      NonEmptyStays(jobs, path[0], path[1], n);
      NextKeeps(jobs, path[0], path[1]);
      var rest := path[1..];
      forall k | 0 <= k < |rest| - 1 ensures Next(jobs, rest[k], rest[k+1]) { assert Next(jobs, path[k+1], path[(k+1)+1]); }
      ContentStays(jobs, rest, n);
    }
  }

  lemma NextKeepsContent(plans: map<Process, Plan>, w: World, w': World, n: Name)
    requires WorldInv(plans, w) && NextWorld(plans, w, w') && n.Dest? && HasContent(w.files, n)
    ensures HasContent(w'.files, n) && ContentOf(w'.files, n) == ContentOf(w.files, n)
  {
    hide Step, Sweep, Inv, JobsOf;
    var path := NextWorldIsMoves(plans, w, w');
    ContentStays(JobsOf(plans), path, n);
  }

  /** A history of processes is a run of the file protocol. */
  lemma {:induction false} Flatten(plans: map<Process, Plan>, run: seq<World>, k: nat) returns (path: seq<State>)
    requires History(plans, run) && k < |run|
    ensures Run(JobsOf(plans), path) && path[0] == run[0].files && path[|path|-1] == run[k].files
  {
    hide Step, Next, JobsOf, Start;
    if k == 0 {
      path := [run[0].files];
    } else {
      var before := Flatten(plans, run, k - 1);
      assert NextWorld(plans, run[k-1], run[(k-1)+1]);
      var last := NextWorldIsMoves(plans, run[k-1], run[k]);
      path := before + last[1..];
      forall i | 0 <= i < |path| - 1 ensures Next(JobsOf(plans), path[i], path[i+1]) {
        if i + 1 >= |before| { assert Next(JobsOf(plans), last[i + 1 - |before|], last[(i + 1 - |before|) + 1]); }
      }
    }
  }

  lemma NamesDiffer(a: string, b: string)
    ensures PackName(a) != IndexName(b)
    ensures IndexName(a) == IndexName(b) ==> a == b
    ensures PackName(a) == PackName(b) ==> a == b
  {
    var x, y := a + ".pack", b + ".pack.idx";
    assert x[|x|-1] == 'k' && y[|y|-1] == 'x';
    if IndexName(a) == IndexName(b) {
      var z := a + ".pack.idx";
      assert |a| == |b| && a == z[..|a|] && b == y[..|b|];
    }
    if PackName(a) == PackName(b) {
      var z := b + ".pack";
      assert |a| == |b| && a == x[..|a|] && b == z[..|b|];
    }
  }

  /** A non-empty index that was not there at the start belongs to one process, which
      has published the pack of the same name, and that pack still has its content. */
  lemma IndexImpliesPack(plans: map<Process, Plan>, run: seq<World>, k: nat, pack: string) returns (p: Process)
    requires History(plans, run) && k < |run|
    requires !HasContent(run[0].files, IndexName(pack)) && HasContent(run[k].files, IndexName(pack))
    ensures p in plans && plans[p].pack == pack
    ensures ContentOf(run[k].files, IndexName(pack)) == plans[p].indexBytes
    ensures HasContent(run[k].files, PackName(pack)) && ContentOf(run[k].files, PackName(pack)) == plans[p].packBytes
  {
    var jobs, s := JobsOf(plans), run[k].files;
    var path := Flatten(plans, run, k);
    OnlyComplete(jobs, path, |path| - 1, IndexName(pack));
    var c :| c in jobs && c in s.phase && s.phase[c].Published? && jobs[c].dest == IndexName(pack)
      && ContentOf(s, IndexName(pack)) == jobs[c].content;
    p := c.process;
    NamesDiffer(plans[p].pack, pack);
    assert c == IndexCreator(p) || c == PackCreator(p);
    AlwaysWorldInv(plans, run, k);
    assert Ordered(s, p);
    PublishedHasContent(jobs, s, PackCreator(p));
  }

  lemma PublishedHasContent(jobs: Jobs, s: State, c: Creator)
    requires Inv(jobs, s) && c in s.phase && s.phase[c].Published?
    ensures c in jobs && HasContent(s, jobs[c].dest) && ContentOf(s, jobs[c].dest) == jobs[c].content
  {}

  // ---- The window between the two publications ----------------------------------------

  /** The pack is there, its index is not, and nobody alive is about to write it. */
  ghost predicate Orphaned(plans: map<Process, Plan>, w: World, pack: string) {
    && HasContent(w.files, PackName(pack)) && !HasContent(w.files, IndexName(pack))
    && forall p :: p in plans && plans[p].pack == pack && PackCreator(p) in w.files.phase && w.files.phase[PackCreator(p)].Published?
         ==> IndexCreator(p) in w.files.phase && Gone(w.files.phase[IndexCreator(p)])
  }

  /** Dying between the two publications orphans the pack. */
  lemma DyingOrphans(plans: map<Process, Plan>, w: World, w': World, p: Process)
    requires WorldInv(plans, w) && p in plans && Die(JobsOf(plans), w, w', p)
    requires IndexCreator(p) in w.files.phase && w.files.phase[IndexCreator(p)].Writing?
    requires PackCreator(p) in w.files.phase && w.files.phase[PackCreator(p)].Published?
    ensures Orphaned(plans, w', plans[p].pack)
  {
    hide Inv, StopsOne, JobsOf;
    InvNames(JobsOf(plans), w.files);
    JobsOfFacts(plans, p);
    var jobs, pack := JobsOf(plans), plans[p].pack;
    var mid :| StopsOne(jobs, w.files, mid, IndexCreator(p)) && StopsOne(jobs, mid, w'.files, PackCreator(p));
    StopsKeep(jobs, w.files, mid, IndexCreator(p));
    StopsKeep(jobs, mid, w'.files, PackCreator(p));
    PublishedHasContent(jobs, w.files, PackCreator(p));
    WriterIsEmpty(jobs, w.files, IndexCreator(p));
    forall q | q in plans && plans[q].pack == pack && PackCreator(q) in w'.files.phase && w'.files.phase[PackCreator(q)].Published?
      ensures IndexCreator(q) in w'.files.phase && Gone(w'.files.phase[IndexCreator(q)])
    {
      if q != p {
        assert Ordered(w.files, q);
        JobsOfFacts(plans, q);
        if w.files.phase[IndexCreator(q)].Writing? { SoleOwner(jobs, w.files, IndexCreator(p), IndexCreator(q)); }
      }
    }
  }

  lemma WriterIsEmpty(jobs: Jobs, s: State, c: Creator)
    requires Inv(jobs, s) && c in s.phase && HoldsEmpty(s.phase[c])
    ensures c in jobs && !HasContent(s, jobs[c].dest)
  {}

  lemma OrphanStep(plans: map<Process, Plan>, w: World, w': World, p: Process, pack: string)
    requires WorldInv(plans, w) && Step(plans, w, w', p) && Orphaned(plans, w, pack)
    ensures Orphaned(plans, w', pack)
  {
    hide Inv, Moves, StopsOne, JobsOf;
    var jobs := JobsOf(plans);
    NextKeepsContent(plans, w, w', PackName(pack));
    if CheckPack(plans, w, w', p) {
    } else if Die(jobs, w, w', p) {
      var mid :| StopsOne(jobs, w.files, mid, IndexCreator(p)) && StopsOne(jobs, mid, w'.files, PackCreator(p));
      StopsKeep(jobs, w.files, mid, IndexCreator(p));
      StopsKeep(jobs, mid, w'.files, PackCreator(p));
    } else if PublishPack(jobs, w, w', p) {
      OrphanMove(plans, w, w', p, PackCreator(p), pack);
    } else {
      OrphanMove(plans, w, w', p, IndexCreator(p), pack);
    }
  }

  lemma OrphanNext(plans: map<Process, Plan>, w: World, w': World, pack: string)
    requires WorldInv(plans, w) && NextWorld(plans, w, w') && Orphaned(plans, w, pack)
    ensures Orphaned(plans, w', pack)
  {
    hide Inv, Step, SweepStep, JobsOf;
    if p :| Step(plans, w, w', p) {
      OrphanStep(plans, w, w', p, pack);
    } else {
      var r :| SweepStep(w.files, w'.files, r);
      NextWorldKeeps(plans, w, w');
      InvNames(JobsOf(plans), w.files);
      InvNames(JobsOf(plans), w'.files);
      SweepChange(w.files, w'.files, r, PackName(pack));
      SweepChange(w.files, w'.files, r, IndexName(pack));
    }
  }

  lemma OrphanMove(plans: map<Process, Plan>, w: World, w': World, p: Process, c: Creator, pack: string)
    requires WorldInv(plans, w) && p in plans && Orphaned(plans, w, pack) && HasContent(w'.files, PackName(pack))
    requires Moves(JobsOf(plans), w.files, w'.files, c)
    requires c == PackCreator(p) || (c == IndexCreator(p) && (w.files.phase[c].Writing? ==> w.files.phase[PackCreator(p)].Published?))
    ensures Orphaned(plans, w', pack)
  {
    hide Inv, Moves, JobsOf;
    var jobs, n := JobsOf(plans), IndexName(pack);
    MovesKeep(jobs, w.files, w'.files, c);
    OthersKeepPhase(jobs, w.files, w'.files, c);
    OnlyWritersPublish(jobs, w.files, w'.files, c);
    InvNames(jobs, w.files);
    InvNames(jobs, w'.files);
    MovesHasCreator(jobs, w.files, w'.files, c);
    MovesChange(jobs, w.files, w'.files, c, n);
    JobsOfFacts(plans, p);
    NamesDiffer(plans[p].pack, pack);
    if w.files.phase[c].Writing? { WriterIsEmpty(jobs, w.files, c); }
    assert Ordered(w.files, p);
  }

  lemma JobsOfFacts(plans: map<Process, Plan>, p: Process)
    requires p in plans
    ensures var jobs := JobsOf(plans);
      && IndexCreator(p) in jobs && jobs[IndexCreator(p)] == Job(IndexName(plans[p].pack), plans[p].indexBytes)
      && PackCreator(p) in jobs && jobs[PackCreator(p)] == Job(PackName(plans[p].pack), plans[p].packBytes)
  {}

  /** An orphaned pack's index is never written, whatever processes come later: the
      reservation of the pair cannot be reclaimed as that of a single file can. */
  lemma {:induction false} OrphanForever(plans: map<Process, Plan>, run: seq<World>, i: nat, j: nat, pack: string)
    requires History(plans, run) && i <= j < |run| && Orphaned(plans, run[i], pack)
    ensures Orphaned(plans, run[j], pack)
    decreases j
  {
    hide Step, WorldInv, Orphaned;
    if i < j {
      OrphanForever(plans, run, i, j - 1, pack);
      AlwaysWorldInv(plans, run, j - 1);
      assert NextWorld(plans, run[j-1], run[(j-1)+1]);
      OrphanNext(plans, run[j-1], run[j], pack);
    }
  }

  // ---- When a pair can be claimed -------------------------------------------------------

  /** One process left alone. */
  ghost predicate Alone(plans: map<Process, Plan>, run: seq<World>, p: Process) {
    |run| > 0 && forall k :: 0 <= k < |run| - 1 ==> Step(plans, run[k], run[k + 1], p)
  }

  /** Any processes, in any order. */
  ghost predicate Together(plans: map<Process, Plan>, run: seq<World>) {
    |run| > 0 && forall k :: 0 <= k < |run| - 1 ==> NextWorld(plans, run[k], run[k + 1])
  }

  predicate Untouched(w: World, p: Process) {
    && IndexCreator(p) in w.files.phase && w.files.phase[IndexCreator(p)].Idle?
    && PackCreator(p) in w.files.phase && w.files.phase[PackCreator(p)].Idle?
    && p !in w.checked
  }

  predicate BothPublished(w: World, p: Process) {
    IsPublished(w.files, IndexCreator(p)) && IsPublished(w.files, PackCreator(p))
  }

  ghost predicate PairClaimable(w: World, plan: Plan) {
    && Claimable(w.files, IndexName(plan.pack)) && Claimable(w.files, PackName(plan.pack))
    && plan.packBytes != [] && plan.indexBytes != []
  }

  function Worlds(run: seq<State>, checked: set<Process>): seq<World> {
    seq(|run|, k requires 0 <= k < |run| => World(run[k], checked))
  }

  lemma AloneChain(plans: map<Process, Plan>, a: seq<World>, b: seq<World>, p: Process) returns (run: seq<World>)
    requires Alone(plans, a, p) && Alone(plans, b, p) && a[|a|-1] == b[0]
    ensures Alone(plans, run, p) && run[0] == a[0] && run[|run|-1] == b[|b|-1]
  {
    hide Step;
    run := a + b[1..];
    forall k | 0 <= k < |run| - 1 ensures Step(plans, run[k], run[k+1], p) {
      if k + 1 < |a| {
      } else {
        assert run[k] == b[k + 1 - |a|] && run[k+1] == b[k + 2 - |a|];
        assert Step(plans, b[k + 1 - |a|], b[(k + 1 - |a|) + 1], p);
      }
    }
  }

  lemma {:induction false} SoloInv(jobs: Jobs, run: seq<State>, c: Creator, k: nat)
    requires Solo(jobs, run, c) && Inv(jobs, run[0]) && k < |run|
    ensures Inv(jobs, run[k])
  {
    hide Inv, Moves;
    if k > 0 {
      SoloInv(jobs, run, c, k - 1);
      assert Moves(jobs, run[k-1], run[(k-1)+1], c);
      MovesKeep(jobs, run[k-1], run[k], c);
    }
  }

  lemma {:induction false} SoloOthers(jobs: Jobs, run: seq<State>, c: Creator, d: Creator, k: nat)
    requires Solo(jobs, run, c) && d != c && d in run[0].phase && k < |run|
    ensures d in run[k].phase && run[k].phase[d] == run[0].phase[d]
  {
    hide Moves;
    if k > 0 {
      SoloOthers(jobs, run, c, d, k - 1);
      assert Moves(jobs, run[k-1], run[(k-1)+1], c);
      OthersKeepPhase(jobs, run[k-1], run[k], c);
    }
  }

  lemma {:induction false} SoloKeepsTemp(jobs: Jobs, run: seq<State>, c: Creator, d: Creator, k: nat)
    requires Solo(jobs, run, c) && Inv(jobs, run[0]) && d != c && HasItsTemp(run[0], d) && k < |run|
    ensures HasItsTemp(run[k], d)
  {
    hide Moves, Inv;
    if k > 0 {
      SoloKeepsTemp(jobs, run, c, d, k - 1);
      SoloInv(jobs, run, c, k - 1);
      assert Moves(jobs, run[k-1], run[(k-1)+1], c);
      MoveKeepsTemp(jobs, run[k-1], run[k], d, c);
    }
  }

  /** A creator that did not stop at the end never stopped. */
  lemma SoloNeverStops(jobs: Jobs, run: seq<State>, c: Creator, k: nat)
    requires Solo(jobs, run, c) && k < |run|
    requires var last := run[|run|-1]; c in last.phase && !last.phase[c].Stopped?
    ensures c in run[k].phase && !run[k].phase[c].Stopped?
  {
    hide Moves;
    if k < |run| - 1 {
      assert Moves(jobs, run[k], run[k+1], c);
      OnlyWritersPublish(jobs, run[k], run[k+1], c);
    }
  }

  lemma {:induction false} SoloKeepsWriting(jobs: Jobs, run: seq<State>, c: Creator, k: nat)
    requires Solo(jobs, run, c) && c in run[0].phase && run[0].phase[c].Writing? && k < |run| - 1
    ensures c in run[k].phase && run[k].phase[c].Writing?
  {
    hide Moves;
    if k > 0 {
      SoloKeepsWriting(jobs, run, c, k - 1);
      assert Moves(jobs, run[k-1], run[(k-1)+1], c);
      OnlyWritersPublish(jobs, run[k-1], run[k], c);
      assert Moves(jobs, run[k], run[k+1], c);
      OnlyWritersPublish(jobs, run[k], run[k+1], c);
    }
  }

  lemma LiftReserve(plans: map<Process, Plan>, run: seq<State>, checked: set<Process>, p: Process)
    requires p in plans && p in checked && Solo(JobsOf(plans), run, IndexCreator(p))
    requires forall k :: 0 <= k < |run| - 1 ==> IndexCreator(p) in run[k].phase && !run[k].phase[IndexCreator(p)].Writing?
    requires var last := run[|run|-1]; IndexCreator(p) in last.phase && !last.phase[IndexCreator(p)].Stopped?
    ensures Alone(plans, Worlds(run, checked), p)
  {
    hide Moves, JobsOf;
    var jobs, worlds := JobsOf(plans), Worlds(run, checked);
    forall k | 0 <= k < |worlds| - 1 ensures Step(plans, worlds[k], worlds[k+1], p) {
      assert Moves(jobs, run[k], run[k+1], IndexCreator(p));
      SoloNeverStops(jobs, run, IndexCreator(p), k + 1);
      assert ReserveIndex(jobs, worlds[k], worlds[k+1], p);
    }
  }

  lemma LiftPack(plans: map<Process, Plan>, run: seq<State>, checked: set<Process>, p: Process)
    requires p in plans && Solo(JobsOf(plans), run, PackCreator(p))
    requires IndexCreator(p) in run[0].phase && run[0].phase[IndexCreator(p)].Writing?
    requires var last := run[|run|-1]; PackCreator(p) in last.phase && !last.phase[PackCreator(p)].Stopped?
    ensures Alone(plans, Worlds(run, checked), p)
  {
    hide Moves, JobsOf;
    var jobs, worlds := JobsOf(plans), Worlds(run, checked);
    forall k | 0 <= k < |worlds| - 1 ensures Step(plans, worlds[k], worlds[k+1], p) {
      assert Moves(jobs, run[k], run[k+1], PackCreator(p));
      SoloNeverStops(jobs, run, PackCreator(p), k + 1);
      SoloOthers(jobs, run, PackCreator(p), IndexCreator(p), k);
      assert PublishPack(jobs, worlds[k], worlds[k+1], p);
    }
  }

  lemma LiftIndex(plans: map<Process, Plan>, run: seq<State>, checked: set<Process>, p: Process)
    requires p in plans && Solo(JobsOf(plans), run, IndexCreator(p))
    requires IndexCreator(p) in run[0].phase && run[0].phase[IndexCreator(p)].Writing? && IsPublished(run[0], PackCreator(p))
    requires var last := run[|run|-1]; IndexCreator(p) in last.phase && !last.phase[IndexCreator(p)].Stopped?
    ensures Alone(plans, Worlds(run, checked), p)
  {
    hide Moves, JobsOf;
    var jobs, worlds := JobsOf(plans), Worlds(run, checked);
    forall k | 0 <= k < |worlds| - 1 ensures Step(plans, worlds[k], worlds[k+1], p) {
      assert Moves(jobs, run[k], run[k+1], IndexCreator(p));
      SoloNeverStops(jobs, run, IndexCreator(p), k + 1);
      SoloOthers(jobs, run, IndexCreator(p), PackCreator(p), k);
      SoloKeepsWriting(jobs, run, IndexCreator(p), k);
      assert PublishIndex(jobs, worlds[k], worlds[k+1], p);
    }
  }

  /** The first check and the reservation of the index. */
  lemma ReservePair(plans: map<Process, Plan>, w: World, p: Process) returns (run: seq<World>)
    requires WorldInv(plans, w) && p in plans && Untouched(w, p) && PairClaimable(w, plans[p])
    ensures Alone(plans, run, p) && run[0] == w && Inv(JobsOf(plans), run[|run|-1].files)
    ensures var s := run[|run|-1].files;
      && HasItsTemp(s, IndexCreator(p))
      && PackCreator(p) in s.phase && s.phase[PackCreator(p)].Idle? && Claimable(s, PackName(plans[p].pack))
  {
    hide Inv, Moves, JobsOf;
    var jobs, c, checked := JobsOf(plans), IndexCreator(p), w.checked + {p};
    JobsOfFacts(plans, p);
    NamesDiffer(plans[p].pack, plans[p].pack);
    var start := [w, World(w.files, checked)];
    assert CheckPack(plans, w, start[1], p);
    var a := Reserve(jobs, w.files, c);
    SoloInv(jobs, a, c, |a| - 1);
    SoloOthers(jobs, a, c, PackCreator(p), |a| - 1);
    LiftReserve(plans, a, checked, p);
    var b := Stage(jobs, a[|a|-1], c);
    SoloInv(jobs, b, c, |b| - 1);
    SoloOthers(jobs, b, c, PackCreator(p), |b| - 1);
    LiftReserve(plans, b, checked, p);
    hide Claimable, Step, Solo, CheckPack;
    run := AloneChain(plans, start, Worlds(a, checked), p);
    run := AloneChain(plans, run, Worlds(b, checked), p);
  }

  /** Up to the window: the pack is published, the index is reserved and empty. */
  lemma PublishFirst(plans: map<Process, Plan>, w: World, p: Process) returns (run: seq<World>)
    requires WorldInv(plans, w) && p in plans && Untouched(w, p) && PairClaimable(w, plans[p])
    ensures Alone(plans, run, p) && run[0] == w && Inv(JobsOf(plans), run[|run|-1].files)
    ensures var s := run[|run|-1].files;
      HasItsTemp(s, IndexCreator(p)) && IsPublished(s, PackCreator(p))
  {
    hide Inv, Moves, JobsOf, Claimable, Step;
    var jobs, c := JobsOf(plans), PackCreator(p);
    JobsOfFacts(plans, p);
    run := ReservePair(plans, w, p);
    var mid := run[|run|-1];
    var a := Reclaim(jobs, mid.files, c);
    SoloInv(jobs, a, c, |a| - 1);
    SoloKeepsTemp(jobs, a, c, IndexCreator(p), |a| - 1);
    LiftPack(plans, a, mid.checked, p);
    run := AloneChain(plans, run, Worlds(a, mid.checked), p);
  }

  lemma WriterIsReady(jobs: Jobs, s: State, c: Creator)
    requires Inv(jobs, s) && HasItsTemp(s, c)
    ensures ReadyToCopy(jobs, s, c)
  {
    assert TempSound(jobs, s, c);
  }

  lemma PublishBoth(plans: map<Process, Plan>, w: World, p: Process) returns (run: seq<World>)
    requires WorldInv(plans, w) && p in plans && Untouched(w, p) && PairClaimable(w, plans[p])
    ensures Alone(plans, run, p) && run[0] == w && BothPublished(run[|run|-1], p)
  {
    hide Inv, Moves, JobsOf, Claimable, Step, ReadyToCopy;
    var jobs, c := JobsOf(plans), IndexCreator(p);
    JobsOfFacts(plans, p);
    run := PublishFirst(plans, w, p);
    var mid := run[|run|-1];
    WriterIsReady(jobs, mid.files, c);
    var a := CopyAll(jobs, mid.files, c);
    var b := Publish(jobs, a[|a|-1], c);
    a := Chain(jobs, a, b, c);
    SoloOthers(jobs, a, c, PackCreator(p), |a| - 1);
    LiftIndex(plans, a, mid.checked, p);
    run := AloneChain(plans, run, Worlds(a, mid.checked), p);
  }

  lemma {:induction false} TogetherInv(plans: map<Process, Plan>, run: seq<World>, k: nat)
    requires Together(plans, run) && WorldInv(plans, run[0]) && k < |run|
    ensures WorldInv(plans, run[k])
  {
    hide Step, WorldInv;
    if k > 0 {
      TogetherInv(plans, run, k - 1);
      assert NextWorld(plans, run[k-1], run[(k-1)+1]);
      NextWorldKeeps(plans, run[k-1], run[k]);
    }
  }

  lemma AloneIsTogether(plans: map<Process, Plan>, run: seq<World>, p: Process)
    requires Alone(plans, run, p)
    ensures Together(plans, run)
  {
    hide Step;
    forall k | 0 <= k < |run| - 1 ensures NextWorld(plans, run[k], run[k + 1]) { assert Step(plans, run[k], run[k + 1], p); }
  }

  /** Nobody publishes over content, whoever moves. */
  lemma StepPublishesNothing(plans: map<Process, Plan>, w: World, w': World, q: Process, c: Creator)
    requires WorldInv(plans, w) && Step(plans, w, w', q)
    requires c in JobsOf(plans) && HasContent(w.files, JobsOf(plans)[c].dest) && !IsPublished(w.files, c)
    ensures !IsPublished(w'.files, c)
  {
    hide Inv, Moves, StopsOne, JobsOf;
    var jobs := JobsOf(plans);
    if CheckPack(plans, w, w', q) {
    } else if Die(jobs, w, w', q) {
      var mid :| StopsOne(jobs, w.files, mid, IndexCreator(q)) && StopsOne(jobs, mid, w'.files, PackCreator(q));
      StopsKeep(jobs, w.files, mid, IndexCreator(q));
      StopsKeep(jobs, mid, w'.files, PackCreator(q));
    } else {
      var e := if PublishPack(jobs, w, w', q) then PackCreator(q) else IndexCreator(q);
      OthersKeepPhase(jobs, w.files, w'.files, e);
      OnlyWritersPublish(jobs, w.files, w'.files, e);
      if e == c && w.files.phase[c].Writing? { WriterIsEmpty(jobs, w.files, c); }
    }
  }

  lemma NextPublishesNothing(plans: map<Process, Plan>, w: World, w': World, c: Creator)
    requires WorldInv(plans, w) && NextWorld(plans, w, w')
    requires c in JobsOf(plans) && HasContent(w.files, JobsOf(plans)[c].dest) && !IsPublished(w.files, c)
    ensures !IsPublished(w'.files, c)
  {
    hide Inv, Step, JobsOf, HasContent, WorldInv;
    if q :| Step(plans, w, w', q) { StepPublishesNothing(plans, w, w', q, c); }
  }

  lemma {:induction false} ContentBlocks(plans: map<Process, Plan>, run: seq<World>, k: nat, c: Creator)
    requires Together(plans, run) && WorldInv(plans, run[0]) && k < |run|
    requires c in JobsOf(plans) && HasContent(run[0].files, JobsOf(plans)[c].dest) && !IsPublished(run[0].files, c)
    ensures HasContent(run[k].files, JobsOf(plans)[c].dest) && !IsPublished(run[k].files, c)
  {
    hide Step, WorldInv, JobsOf, HasContent;
    if k > 0 {
      ContentBlocks(plans, run, k - 1, c);
      TogetherInv(plans, run, k - 1);
      assert NextWorld(plans, run[k-1], run[(k-1)+1]);
      NextKeepsContent(plans, run[k-1], run[k], JobsOf(plans)[c].dest);
      NextPublishesNothing(plans, run[k-1], run[k], c);
    }
  }

  /** Another creator has the file locked. */
  ghost predicate LockedBy(s: State, n: Name, d: Creator) {
    d in s.phase && HoldsTarget(s.phase[d]) && n in s.fs.names && s.fs.names[n] == s.phase[d].target
  }

  /** An empty file that cannot be claimed is locked by a creator that has begun. */
  lemma UnclaimableIsLocked(jobs: Jobs, s: State, n: Name) returns (d: Creator)
    requires Inv(jobs, s) && n.Dest? && !Claimable(s, n) && !HasContent(s, n)
    ensures LockedBy(s, n, d)
  {
    var i := s.fs.names[n];
    d := s.fs.inodes[i].lock.owner;
    assert HeldRightly(s, i, d);
  }

  lemma LockKeepsOut(jobs: Jobs, s: State, s': State, e: Creator, n: Name, d: Creator)
    requires Inv(jobs, s) && Moves(jobs, s, s', e) && e != d && n.Dest? && LockedBy(s, n, d)
    ensures LockedBy(s', n, d) && (jobs[e].dest == n ==> !s'.phase[e].Published?)
  {
    OthersKeepPhase(jobs, s, s', e);
    MovesHasCreator(jobs, s, s', e);
    OnlyWritersPublish(jobs, s, s', e);
    if jobs[e].dest == n && s.phase[e].Writing? { LockedIsSole(jobs, s, n, d, e); }
    MovesKeepNames(jobs, s, s', e, n);
  }

  lemma LockedIsSole(jobs: Jobs, s: State, n: Name, d: Creator, e: Creator)
    requires Inv(jobs, s) && LockedBy(s, n, d) && e in s.phase && HoldsName(s.phase[e]) && jobs[e].dest == n
    ensures e == d
  {}

  lemma MovesKeepNames(jobs: Jobs, s: State, s': State, e: Creator, n: Name)
    requires Inv(jobs, s) && Moves(jobs, s, s', e) && n.Dest? && n in s.fs.names
    ensures n in s'.fs.names && (s'.fs.names[n] == s.fs.names[n] || (jobs[e].dest == n && s.phase[e].Writing?))
  {
    hide LocksSound, OwnersSound, PublishedSound;
  }

  lemma AloneLockKeepsOut(plans: map<Process, Plan>, w: World, w': World, p: Process, c: Creator, d: Creator)
    requires WorldInv(plans, w) && Step(plans, w, w', p) && d.process != p
    requires c.process == p && c in JobsOf(plans) && !IsPublished(w.files, c) && LockedBy(w.files, JobsOf(plans)[c].dest, d)
    ensures !IsPublished(w'.files, c) && LockedBy(w'.files, JobsOf(plans)[c].dest, d)
  {
    hide Inv, Moves, StopsOne, JobsOf;
    var jobs := JobsOf(plans);
    var n := jobs[c].dest;
    if CheckPack(plans, w, w', p) {
    } else if Die(jobs, w, w', p) {
      var mid :| StopsOne(jobs, w.files, mid, IndexCreator(p)) && StopsOne(jobs, mid, w'.files, PackCreator(p));
      StopsKeep(jobs, w.files, mid, IndexCreator(p));
      StopsKeep(jobs, mid, w'.files, PackCreator(p));
    } else {
      var e := if PublishPack(jobs, w, w', p) then PackCreator(p) else IndexCreator(p);
      OthersKeepPhase(jobs, w.files, w'.files, e);
      LockKeepsOut(jobs, w.files, w'.files, e, n, d);
    }
  }

  lemma {:induction false} LockBlocks(plans: map<Process, Plan>, run: seq<World>, k: nat, p: Process, c: Creator, d: Creator)
    requires Alone(plans, run, p) && WorldInv(plans, run[0]) && k < |run| && d.process != p && c.process == p
    requires c in JobsOf(plans) && !IsPublished(run[0].files, c) && LockedBy(run[0].files, JobsOf(plans)[c].dest, d)
    ensures !IsPublished(run[k].files, c) && LockedBy(run[k].files, JobsOf(plans)[c].dest, d)
  {
    hide Step, WorldInv, JobsOf, LockedBy;
    if k > 0 {
      LockBlocks(plans, run, k - 1, p, c, d);
      AloneIsTogether(plans, run, p);
      TogetherInv(plans, run, k - 1);
      assert Step(plans, run[k-1], run[(k-1)+1], p);
      AloneLockKeepsOut(plans, run[k-1], run[k], p, c, d);
    }
  }

  lemma PublishedNeedsClaimable(plans: map<Process, Plan>, run: seq<World>, p: Process, c: Creator)
    requires Alone(plans, run, p) && WorldInv(plans, run[0]) && p in plans && Untouched(run[0], p)
    requires c == IndexCreator(p) || c == PackCreator(p)
    requires IsPublished(run[|run|-1].files, c)
    ensures c in JobsOf(plans) && JobsOf(plans)[c].content != [] && Claimable(run[0].files, JobsOf(plans)[c].dest)
  {
    hide Inv, Step, JobsOf, Claimable, HasContent;
    var jobs, s, last := JobsOf(plans), run[0].files, |run| - 1;
    JobsOfFacts(plans, p);
    AloneIsTogether(plans, run, p);
    TogetherInv(plans, run, last);
    PublishedSomething(jobs, run[last].files, c);
    if HasContent(s, jobs[c].dest) {
      ContentBlocks(plans, run, last, c);
    } else if !Claimable(s, jobs[c].dest) {
      var d := UnclaimableIsLocked(jobs, s, jobs[c].dest);
      LockerHasJob(jobs, s, d);
      assert d.process == p ==> d == IndexCreator(p) || d == PackCreator(p);
      LockBlocks(plans, run, last, p, c, d);
    }
  }

  lemma PublishedSomething(jobs: Jobs, s: State, c: Creator)
    requires Inv(jobs, s) && IsPublished(s, c)
    ensures c in jobs && jobs[c].content != []
  {}

  lemma LockerHasJob(jobs: Jobs, s: State, d: Creator)
    requires Inv(jobs, s) && d in s.phase
    ensures d in jobs
  {}

  /** The pair of one process, exactly: an untouched process left alone can publish both
      files if and only if both destinations are claimable, which for the pack says in
      particular that it has no content. */
  lemma PairReclaimable(plans: map<Process, Plan>, w: World, p: Process)
    requires WorldInv(plans, w) && p in plans && Untouched(w, p)
    ensures (exists run :: Alone(plans, run, p) && run[0] == w && BothPublished(run[|run|-1], p)) <==> PairClaimable(w, plans[p])
    ensures PairClaimable(w, plans[p]) ==> !HasContent(w.files, PackName(plans[p].pack))
  {
    hide WorldInv, Step, JobsOf, Claimable, Untouched;
    if PairClaimable(w, plans[p]) {
      var run := PublishBoth(plans, w, p);
      assert !HasContent(w.files, PackName(plans[p].pack)) by { ClaimableIsEmpty(w.files, PackName(plans[p].pack)); }
    }
    forall run | Alone(plans, run, p) && run[0] == w && BothPublished(run[|run|-1], p) ensures PairClaimable(w, plans[p]) {
      JobsOfFacts(plans, p);
      PublishedNeedsClaimable(plans, run, p, IndexCreator(p));
      PublishedNeedsClaimable(plans, run, p, PackCreator(p));
    }
  }

  lemma ClaimableIsEmpty(s: State, n: Name)
    requires Claimable(s, n)
    ensures !HasContent(s, n)
  {}

  // ---- With the other processes out of the way ----------------------------------------

  predicate Ended(s: State, q: Process) {
    && IndexCreator(q) in s.phase && Gone(s.phase[IndexCreator(q)])
    && PackCreator(q) in s.phase && Gone(s.phase[PackCreator(q)])
  }

  ghost predicate SameFiles(s: State, s': State) {
    && s'.fs.names == s.fs.names && s'.fs.inodes.Keys == s.fs.inodes.Keys
    && forall i :: i in s.fs.inodes ==> s'.fs.inodes[i].content == s.fs.inodes[i].content
  }

  function StoppedOne(s: State, c: Creator): State
    requires c in s.phase
  {
    if Gone(s.phase[c]) then s else State(Unlock(s.fs, c), s.phase[c := Stopped])
  }

  lemma DieNow(plans: map<Process, Plan>, w: World, q: Process) returns (w': World)
    requires WorldInv(plans, w) && q in plans
    ensures Step(plans, w, w', q) && w'.checked == w.checked && Ended(w'.files, q) && SameFiles(w.files, w'.files)
    ensures forall d :: d in w.files.phase && d.process != q ==> d in w'.files.phase && w'.files.phase[d] == w.files.phase[d]
  {
    hide Inv, JobsOf;
    var jobs := JobsOf(plans);
    JobsOfFacts(plans, q);
    assert Ordered(w.files, q);
    var mid := StoppedOne(w.files, IndexCreator(q));
    var last := StoppedOne(mid, PackCreator(q));
    assert StopsOne(jobs, w.files, mid, IndexCreator(q)) && StopsOne(jobs, mid, last, PackCreator(q));
    StopsKeep(jobs, w.files, mid, IndexCreator(q));
    StopsKeep(jobs, mid, last, PackCreator(q));
    w' := World(last, w.checked);
    hide StopsOne, WorldInv;
    assert Die(jobs, w, w', q);
  }

  lemma {:induction false} AllDie(plans: map<Process, Plan>, w: World, these: set<Process>) returns (run: seq<World>)
    requires WorldInv(plans, w) && these <= plans.Keys
    ensures Together(plans, run) && run[0] == w
    ensures var last := run[|run|-1]; last.checked == w.checked && SameFiles(w.files, last.files) && forall q :: q in these ==> Ended(last.files, q)
    ensures forall d :: d in w.files.phase && d.process !in these ==>
      d in run[|run|-1].files.phase && run[|run|-1].files.phase[d] == w.files.phase[d]
  {
    hide WorldInv, Step;
    if these == {} { run := [w]; } else {
      var q :| q in these;
      var before := AllDie(plans, w, these - {q});
      TogetherInv(plans, before, |before| - 1);
      var w' := DieNow(plans, before[|before|-1], q);
      forall r | r in these - {q} ensures Ended(w'.files, r) {
        assert Ended(before[|before|-1].files, r) && IndexCreator(r).process == PackCreator(r).process == r;
      }
      run := before + [w'];
      forall k | 0 <= k < |run| - 1 ensures NextWorld(plans, run[k], run[k+1]) {
        if k == |run| - 2 { assert Step(plans, run[k], run[k+1], q); } else { assert NextWorld(plans, before[k], before[k+1]); }
      }
    }
  }

  lemma HoldersAreBusy(jobs: Jobs, s: State, i: Ino)
    requires Inv(jobs, s) && i in s.fs.inodes && s.fs.inodes[i].lock.Held?
    ensures var d := s.fs.inodes[i].lock.owner; d in jobs && d in s.phase && !s.phase[d].Idle? && !Gone(s.phase[d])
  {
    assert HeldRightly(s, i, s.fs.inodes[i].lock.owner);
  }

  lemma AtRest(plans: map<Process, Plan>, w: World, p: Process, d: Creator)
    requires Untouched(w, p) && d in JobsOf(plans) && forall q :: q in plans && q != p ==> Ended(w.files, q)
    ensures d in w.files.phase && (w.files.phase[d].Idle? || Gone(w.files.phase[d]))
  {
    assert d == IndexCreator(d.process) || d == PackCreator(d.process);
  }

  /** Nobody alive but one process that has not begun: nothing is locked. */
  lemma NothingLocked(plans: map<Process, Plan>, w: World, p: Process, n: Name)
    requires WorldInv(plans, w) && Untouched(w, p) && !HasContent(w.files, n)
    requires forall q :: q in plans && q != p ==> Ended(w.files, q)
    ensures Claimable(w.files, n)
  {
    hide Inv, JobsOf;
    var s := w.files;
    InvNames(JobsOf(plans), s);
    if n in s.fs.names && s.fs.inodes[s.fs.names[n]].lock.Held? {
      HoldersAreBusy(JobsOf(plans), s, s.fs.names[n]);
      var d := s.fs.inodes[s.fs.names[n]].lock.owner;
      AtRest(plans, w, p, d);
    }
  }

  lemma TogetherChain(plans: map<Process, Plan>, a: seq<World>, b: seq<World>) returns (run: seq<World>)
    requires Together(plans, a) && Together(plans, b) && a[|a|-1] == b[0]
    ensures Together(plans, run) && run[0] == a[0] && run[|run|-1] == b[|b|-1]
  {
    hide Step, NextWorld;
    run := a + b[1..];
    forall k | 0 <= k < |run| - 1 ensures NextWorld(plans, run[k], run[k+1]) {
      if k + 1 < |a| {
      } else {
        assert run[k] == b[k + 1 - |a|] && run[k+1] == b[k + 2 - |a|];
        assert NextWorld(plans, b[k + 1 - |a|], b[(k + 1 - |a|) + 1]);
      }
    }
  }

  /** With any processes moving and dying as they may: an untouched process can still come
      to publish both files if and only if neither of them has content. */
  lemma PairPublishable(plans: map<Process, Plan>, w: World, p: Process)
    requires WorldInv(plans, w) && p in plans && Untouched(w, p)
    ensures (exists run :: Together(plans, run) && run[0] == w && BothPublished(run[|run|-1], p))
      <==> (!HasContent(w.files, IndexName(plans[p].pack)) && !HasContent(w.files, PackName(plans[p].pack))
            && plans[p].packBytes != [] && plans[p].indexBytes != [])
  {
    hide WorldInv, Step, JobsOf, Claimable, HasContent;
    var plan := plans[p];
    if !HasContent(w.files, IndexName(plan.pack)) && !HasContent(w.files, PackName(plan.pack)) && plan.packBytes != [] && plan.indexBytes != [] {
      var before := AllDie(plans, w, plans.Keys - {p});
      var mid := before[|before|-1];
      TogetherInv(plans, before, |before| - 1);
      SameContent(w.files, mid.files, IndexName(plan.pack));
      SameContent(w.files, mid.files, PackName(plan.pack));
      NothingLocked(plans, mid, p, IndexName(plan.pack));
      NothingLocked(plans, mid, p, PackName(plan.pack));
      var alone := PublishBoth(plans, mid, p);
      AloneIsTogether(plans, alone, p);
      var run := TogetherChain(plans, before, alone);
    }
    forall run | Together(plans, run) && run[0] == w && BothPublished(run[|run|-1], p)
      ensures !HasContent(w.files, IndexName(plan.pack)) && !HasContent(w.files, PackName(plan.pack)) && plan.packBytes != [] && plan.indexBytes != []
    {
      JobsOfFacts(plans, p);
      PublishedNeedsEmpty(plans, run, p, IndexCreator(p));
      PublishedNeedsEmpty(plans, run, p, PackCreator(p));
    }
  }

  lemma SameContent(s: State, s': State, n: Name)
    requires SameFiles(s, s')
    ensures HasContent(s', n) == HasContent(s, n)
  {}

  lemma PublishedNeedsEmpty(plans: map<Process, Plan>, run: seq<World>, p: Process, c: Creator)
    requires Together(plans, run) && WorldInv(plans, run[0]) && p in plans && Untouched(run[0], p)
    requires c == IndexCreator(p) || c == PackCreator(p)
    requires IsPublished(run[|run|-1].files, c)
    ensures c in JobsOf(plans) && JobsOf(plans)[c].content != [] && !HasContent(run[0].files, JobsOf(plans)[c].dest)
  {
    hide Inv, Step, JobsOf, HasContent;
    JobsOfFacts(plans, p);
    TogetherInv(plans, run, |run| - 1);
    PublishedSomething(JobsOf(plans), run[|run|-1].files, c);
    if HasContent(run[0].files, JobsOf(plans)[c].dest) { ContentBlocks(plans, run, |run| - 1, c); }
  }

  // ---- From a start ---------------------------------------------------------------------

  lemma StartInv(plans: map<Process, Plan>, w: World, p: Process)
    requires Start(plans, w) && p in plans
    ensures WorldInv(plans, w) && Untouched(w, p)
  {
    hide JobsOf, Inv;
    JobsOfFacts(plans, p);
    InitInv(JobsOf(plans), w.files);
    forall q | q in plans ensures Ordered(w.files, q) { JobsOfFacts(plans, q); }
  }

  /** From every start with a claimable pair some history ends with both files published. */
  lemma SomeHistoryPublishes(plans: map<Process, Plan>, w: World, p: Process) returns (run: seq<World>)
    requires Start(plans, w) && p in plans && PairClaimable(w, plans[p])
    ensures History(plans, run) && run[0] == w
    ensures var s, plan := run[|run|-1].files, plans[p];
      && HasContent(s, PackName(plan.pack)) && ContentOf(s, PackName(plan.pack)) == plan.packBytes
      && HasContent(s, IndexName(plan.pack)) && ContentOf(s, IndexName(plan.pack)) == plan.indexBytes
  {
    hide Inv, Step, JobsOf, Claimable, HasContent, Start;
    StartInv(plans, w, p);
    JobsOfFacts(plans, p);
    run := PublishBoth(plans, w, p);
    AloneIsTogether(plans, run, p);
    TogetherInv(plans, run, |run| - 1);
    PublishedHasContent(JobsOf(plans), run[|run|-1].files, IndexCreator(p));
    PublishedHasContent(JobsOf(plans), run[|run|-1].files, PackCreator(p));
  }

  /** And some history orphans the pack: the process dies in the window. */
  lemma SomeHistoryOrphans(plans: map<Process, Plan>, w: World, p: Process) returns (run: seq<World>)
    requires Start(plans, w) && p in plans && PairClaimable(w, plans[p])
    ensures History(plans, run) && run[0] == w && Orphaned(plans, run[|run|-1], plans[p].pack)
  {
    hide Inv, Step, JobsOf, Claimable, HasContent, Start, Orphaned, StopsOne;
    StartInv(plans, w, p);
    var before := PublishFirst(plans, w, p);
    AloneIsTogether(plans, before, p);
    TogetherInv(plans, before, |before| - 1);
    var w' := DieInWindow(plans, before[|before|-1], p);
    run := before + [w'];
    forall k | 0 <= k < |run| - 1 ensures NextWorld(plans, run[k], run[k+1]) {
      if k == |run| - 2 { assert Step(plans, run[k], run[k+1], p); } else { assert NextWorld(plans, before[k], before[k+1]); }
    }
  }

  lemma DieInWindow(plans: map<Process, Plan>, w: World, p: Process) returns (w': World)
    requires WorldInv(plans, w) && p in plans && IsPublished(w.files, PackCreator(p))
    requires IndexCreator(p) in w.files.phase && w.files.phase[IndexCreator(p)].Writing?
    ensures Step(plans, w, w', p) && Orphaned(plans, w', plans[p].pack)
  {
    hide Inv, JobsOf, Orphaned, WorldInv;
    var jobs, s := JobsOf(plans), w.files;
    JobsOfFacts(plans, p);
    var mid := StoppedOne(s, IndexCreator(p));
    w' := World(mid, w.checked);
    assert StopsOne(jobs, s, mid, IndexCreator(p)) && StopsOne(jobs, mid, mid, PackCreator(p));
    hide StopsOne;
    assert Die(jobs, w, w', p);
    DyingOrphans(plans, w, w', p);
  }

  /** For instance in an empty data directory. */
  lemma EmptyDirectoryOrphans(plans: map<Process, Plan>, p: Process) returns (run: seq<World>)
    requires p in plans && plans[p].packBytes != [] && plans[p].indexBytes != []
    ensures History(plans, run) && run[0].files.fs == Fs(map[], map[]) && Orphaned(plans, run[|run|-1], plans[p].pack)
  {
    var jobs := JobsOf(plans);
    hide Orphaned, Step;
    FreshStart(jobs);
    run := SomeHistoryOrphans(plans, World(State(Fs(map[], map[]), map c | c in jobs :: Idle), {}), p);
  }

  // ---- A pack without an index stays without a reservation -----------------------------------

  /** No process for this pack has passed its first check and is still alive. */
  ghost predicate NobodyBegun(plans: map<Process, Plan>, w: World, pack: string) {
    forall p :: p in plans && plans[p].pack == pack ==>
      IndexCreator(p) in w.files.phase && ((w.files.phase[IndexCreator(p)].Idle? && p !in w.checked) || Gone(w.files.phase[IndexCreator(p)]))
  }

  /** A pack with content, and not even an empty file where its index would be. */
  ghost predicate PackAlone(plans: map<Process, Plan>, w: World, pack: string) {
    HasContent(w.files, PackName(pack)) && IndexName(pack) !in w.files.fs.names && NobodyBegun(plans, w, pack)
  }

  /** Only opening a destination binds its name. */
  lemma MovesBind(jobs: Jobs, s: State, s': State, c: Creator, n: Name)
    requires Inv(jobs, s) && Moves(jobs, s, s', c) && n.Dest? && n !in s.fs.names
    ensures n in s'.fs.names ==> jobs[c].dest == n && s.phase[c].Idle?
  {
    hide LocksSound, TempsSound, TempsApart, PublishedSound;
  }

  lemma AloneMove(plans: map<Process, Plan>, w: World, w': World, p: Process, c: Creator, pack: string)
    requires WorldInv(plans, w) && p in plans && PackAlone(plans, w, pack) && HasContent(w'.files, PackName(pack)) && w'.checked == w.checked
    requires Moves(JobsOf(plans), w.files, w'.files, c)
    requires c == PackCreator(p) || (c == IndexCreator(p) && (p in w.checked || w.files.phase[c].Writing?))
    ensures PackAlone(plans, w', pack)
  {
    hide Inv, Moves, JobsOf;
    var jobs, n := JobsOf(plans), IndexName(pack);
    JobsOfFacts(plans, p);
    NamesDiffer(plans[p].pack, pack);
    MovesBind(jobs, w.files, w'.files, c, n);
    OthersKeepPhase(jobs, w.files, w'.files, c);
    OnlyWritersPublish(jobs, w.files, w'.files, c);
  }

  lemma AloneStep(plans: map<Process, Plan>, w: World, w': World, p: Process, pack: string)
    requires WorldInv(plans, w) && Step(plans, w, w', p) && PackAlone(plans, w, pack)
    ensures PackAlone(plans, w', pack)
  {
    hide Inv, Moves, StopsOne, JobsOf;
    var jobs := JobsOf(plans);
    NextKeepsContent(plans, w, w', PackName(pack));
    if CheckPack(plans, w, w', p) {
    } else if Die(jobs, w, w', p) {
      var mid :| StopsOne(jobs, w.files, mid, IndexCreator(p)) && StopsOne(jobs, mid, w'.files, PackCreator(p));
      StopsKeep(jobs, w.files, mid, IndexCreator(p));
      StopsKeep(jobs, mid, w'.files, PackCreator(p));
    } else if PublishPack(jobs, w, w', p) {
      AloneMove(plans, w, w', p, PackCreator(p), pack);
    } else {
      AloneMove(plans, w, w', p, IndexCreator(p), pack);
    }
  }

  /** Creators that meet a pack with content bind no name for its index: what the first check
      is for, over every continuation. */
  lemma {:induction false} NoReservationLeft(plans: map<Process, Plan>, run: seq<World>, k: nat, pack: string)
    requires Together(plans, run) && WorldInv(plans, run[0]) && k < |run| && PackAlone(plans, run[0], pack)
    ensures PackAlone(plans, run[k], pack)
  {
    hide Step, WorldInv, PackAlone;
    if k > 0 {
      NoReservationLeft(plans, run, k - 1, pack);
      TogetherInv(plans, run, k - 1);
      assert NextWorld(plans, run[k-1], run[(k-1)+1]);
      AloneNext(plans, run[k-1], run[k], pack);
    }
  }

  lemma AloneNext(plans: map<Process, Plan>, w: World, w': World, pack: string)
    requires WorldInv(plans, w) && NextWorld(plans, w, w') && PackAlone(plans, w, pack)
    ensures PackAlone(plans, w', pack)
  {
    hide Inv, Step, SweepStep, JobsOf;
    if p :| Step(plans, w, w', p) {
      AloneStep(plans, w, w', p, pack);
    } else {
      var r :| SweepStep(w.files, w'.files, r);
      NextKeepsContent(plans, w, w', PackName(pack));
      NextWorldKeeps(plans, w, w');
      InvNames(JobsOf(plans), w.files);
      InvNames(JobsOf(plans), w'.files);
      SweepChange(w.files, w'.files, r, IndexName(pack));
    }
  }
}
