/** AtomicCreateFile as a protocol between any number of creators, any of which may stop
    at any step. Unix variant: advisory locks on inodes, rename over the destination. */
module AtomicFile {
  import opened ByteStrings

  /** Destinations are chosen by callers; temporaries have random names of their own. */
  datatype Name = Dest(path: string) | Temp(random: nat)
  type Ino = nat
  /** One run of new() and commit_content(): the calls of a process are numbered. */
  datatype Creator = Creator(process: nat, call: nat)

  datatype Holder = Free | Held(owner: Creator)
  /** `boundAs` is the last name the inode was given (there are no hard links) and
      `maker` the creator whose open made it. */
  datatype Inode = Inode(content: Bytes, lock: Holder, boundAs: Name, maker: Creator)
  datatype Fs = Fs(names: map<Name, Ino>, inodes: map<Ino, Inode>)

  /** Where a creator is between two system calls. `target` is the inode behind its
      descriptor of the destination. */
  datatype Phase =
    | Idle
    | Opened(target: Ino)
    | Locked(target: Ino)
    | Verified(target: Ino)
    | Reserved(target: Ino)
    | Staging(target: Ino, temp: Name, tempIno: Ino)
    | Writing(target: Ino, temp: Name, tempIno: Ino)
    | Published
    | Stopped

  datatype Job = Job(dest: Name, content: Bytes)
  datatype State = State(fs: Fs, phase: map<Creator, Phase>)
  /** What every creator was started with; fixed over a run. */
  type Jobs = map<Creator, Job>

  ghost predicate GoodJobs(jobs: Jobs) { forall c :: c in jobs ==> jobs[c].dest.Dest? }

  /** Past new(): the creator has been told that it may produce the file. */
  predicate PastNew(p: Phase) { p.Writing? }

  // ---- Steps -----------------------------------------------------------------------

  function Unlock(fs: Fs, c: Creator): Fs {
    fs.(inodes := map i | i in fs.inodes ::
      if fs.inodes[i].lock == Held(c) then fs.inodes[i].(lock := Free) else fs.inodes[i])
  }

  /** open with create: bind a fresh empty inode if the name is free. */
  ghost predicate OpenStep(jobs: Jobs, s: State, s': State, c: Creator, fresh': Ino)
    requires c in s.phase && c in jobs
  {
    && s.phase[c].Idle?
    && var d := jobs[c].dest;
    if d in s.fs.names then s' == s.(phase := s.phase[c := Opened(s.fs.names[d])])
    else
      && fresh' !in s.fs.inodes
      && s' == State(Fs(s.fs.names[d := fresh'], s.fs.inodes[fresh' := Inode([], Free, d, c)]), s.phase[c := Opened(fresh')])
  }

  /** try_lock_exclusive on the destination's descriptor; a held lock is an error. */
  ghost predicate LockStep(s: State, s': State, c: Creator)
    requires c in s.phase
  {
    && s.phase[c].Opened?
    && var i := s.phase[c].target;
    && i in s.fs.inodes && s.fs.inodes[i].lock.Free?
    && s' == State(s.fs.(inodes := s.fs.inodes[i := s.fs.inodes[i].(lock := Held(c))]), s.phase[c := Locked(i)])
  }

  /** lock_name: the name must still denote the locked inode. */
  ghost predicate VerifyStep(jobs: Jobs, s: State, s': State, c: Creator)
    requires c in s.phase && c in jobs
  {
    && s.phase[c].Locked?
    && jobs[c].dest in s.fs.names && s.fs.names[jobs[c].dest] == s.phase[c].target
    && s' == s.(phase := s.phase[c := Verified(s.phase[c].target)])
  }

  /** The destination must be empty. */
  ghost predicate EmptyStep(s: State, s': State, c: Creator)
    requires c in s.phase
  {
    && s.phase[c].Verified?
    && var i := s.phase[c].target;
    && i in s.fs.inodes && s.fs.inodes[i].content == []
    && s' == s.(phase := s.phase[c := Reserved(i)])
  }

  ghost predicate NotDrawn(s: State, n: Name) { forall d :: d in s.phase && HasTemp(s.phase[d]) ==> s.phase[d].temp != n }

  /** create_temp, first half: a name nobody has, by O_EXCL, nor has drawn: it has 128
      random bits. */
  ghost predicate TempStep(s: State, s': State, c: Creator, random: nat, fresh': Ino)
    requires c in s.phase
  {
    && s.phase[c].Reserved?
    && Temp(random) !in s.fs.names && fresh' !in s.fs.inodes && NotDrawn(s, Temp(random))
    && s' == State(Fs(s.fs.names[Temp(random) := fresh'], s.fs.inodes[fresh' := Inode([], Free, Temp(random), c)]),
                   s.phase[c := Staging(s.phase[c].target, Temp(random), fresh')])
  }

  /** create_temp, second half: lock it. new() returns after this step. */
  ghost predicate TempLockStep(s: State, s': State, c: Creator)
    requires c in s.phase
  {
    && s.phase[c].Staging?
    && var i := s.phase[c].tempIno;
    && i in s.fs.inodes && s.fs.inodes[i].lock.Free?
    && s' == State(s.fs.(inodes := s.fs.inodes[i := s.fs.inodes[i].(lock := Held(c))]),
                   s.phase[c := Writing(s.phase[c].target, s.phase[c].temp, i)])
  }

  /** io::copy appends one more byte of the content to the temporary file. */
  ghost predicate CopyStep(jobs: Jobs, s: State, s': State, c: Creator)
    requires c in s.phase && c in jobs
  {
    && s.phase[c].Writing?
    && var i := s.phase[c].tempIno;
    && i in s.fs.inodes
    && var done := s.fs.inodes[i].content;
    && done < jobs[c].content
    && s' == s.(fs := s.fs.(inodes := s.fs.inodes[i := s.fs.inodes[i].(content := jobs[c].content[..|done| + 1])]))
  }

  /** After sync, rename over the destination and let go of every lock. An empty content
      is refused by an assertion, which ends the process instead. */
  ghost predicate RenameStep(jobs: Jobs, s: State, s': State, c: Creator)
    requires c in s.phase && c in jobs
  {
    && s.phase[c].Writing?
    && var p := s.phase[c];
    && p.tempIno in s.fs.inodes && s.fs.inodes[p.tempIno].content == jobs[c].content != []
    && p.temp in s.fs.names && s.fs.names[p.temp] in s.fs.inodes
    && var i := s.fs.names[p.temp];
    && s' == State(Unlock(Fs((s.fs.names - {p.temp})[jobs[c].dest := i], s.fs.inodes[i := s.fs.inodes[i].(boundAs := jobs[c].dest)]), c),
                   s.phase[c := Published])
  }

  /** An error return or a crash, at any point: descriptors close, locks go, names and
      contents stay as they are. */
  ghost predicate StopStep(s: State, s': State, c: Creator)
    requires c in s.phase
  {
    && !s.phase[c].Published? && !s.phase[c].Stopped?
    && s' == State(Unlock(s.fs, c), s.phase[c := Stopped])
  }

  ghost predicate Moves(jobs: Jobs, s: State, s': State, c: Creator) {
    && c in s.phase && c in jobs
    && (|| (exists i :: OpenStep(jobs, s, s', c, i))
        || LockStep(s, s', c)
        || VerifyStep(jobs, s, s', c)
        || EmptyStep(s, s', c)
        || (exists r, i :: TempStep(s, s', c, r, i))
        || TempLockStep(s, s', c)
        || CopyStep(jobs, s, s', c)
        || RenameStep(jobs, s, s', c)
        || StopStep(s, s', c))
  }

  /** Anybody may delete a temporary file that is not locked. */
  ghost predicate SweepStep(s: State, s': State, random: nat) {
    && Temp(random) in s.fs.names && s.fs.names[Temp(random)] in s.fs.inodes
    && s.fs.inodes[s.fs.names[Temp(random)]].lock.Free?
    && s' == s.(fs := s.fs.(names := s.fs.names - {Temp(random)}))
  }

  ghost predicate Next(jobs: Jobs, s: State, s': State) {
    (exists c :: Moves(jobs, s, s', c)) || (exists r :: SweepStep(s, s', r))
  }

  ghost predicate Run(jobs: Jobs, run: seq<State>) {
    && |run| > 0
    && forall k :: 0 <= k < |run| - 1 ==> Next(jobs, run[k], run[k + 1])
  }

  /** Any names and files may exist before, with nobody holding a lock. */
  ghost predicate Init(jobs: Jobs, s: State) {
    && s.phase.Keys == jobs.Keys
    && (forall c :: c in s.phase ==> s.phase[c].Idle?)
    && (forall i :: i in s.fs.inodes ==> s.fs.inodes[i].lock.Free?)
    && NamesSound(s)
  }

  // ---- Invariant -------------------------------------------------------------------

  predicate HoldsTarget(p: Phase) { p.Locked? || p.Verified? || p.Reserved? || p.Staging? || p.Writing? }
  /** From the lock_name check on, the name denotes the locked inode. */
  predicate HoldsName(p: Phase) { p.Verified? || p.Reserved? || p.Staging? || p.Writing? }
  /** From the length check on, the destination is empty. */
  predicate HoldsEmpty(p: Phase) { p.Reserved? || p.Staging? || p.Writing? }
  predicate HasTemp(p: Phase) { p.Staging? || p.Writing? }

  function ContentOf(s: State, n: Name): Bytes
    requires n in s.fs.names && s.fs.names[n] in s.fs.inodes
  {
    s.fs.inodes[s.fs.names[n]].content
  }

  ghost predicate NamesSound(s: State) {
    forall n :: n in s.fs.names ==> s.fs.names[n] in s.fs.inodes && s.fs.inodes[s.fs.names[n]].boundAs == n
  }

  ghost predicate LocksSound(s: State) {
    && (forall c :: c in s.phase && HoldsTarget(s.phase[c]) ==>
          s.phase[c].target in s.fs.inodes && s.fs.inodes[s.phase[c].target].lock == Held(c))
    && (forall c :: c in s.phase && s.phase[c].Opened? ==> s.phase[c].target in s.fs.inodes)
    && (forall c :: c in s.phase && s.phase[c].Writing? ==>
          s.phase[c].tempIno in s.fs.inodes && s.fs.inodes[s.phase[c].tempIno].lock == Held(c))
    && (forall i :: i in s.fs.inodes && s.fs.inodes[i].lock.Held? ==> HeldRightly(s, i, s.fs.inodes[i].lock.owner))
  }

  ghost predicate HeldRightly(s: State, i: Ino, c: Creator) {
    && c in s.phase
    && ((HoldsTarget(s.phase[c]) && s.phase[c].target == i) || (s.phase[c].Writing? && s.phase[c].tempIno == i))
  }

  ghost predicate OwnersSound(jobs: Jobs, s: State)
    requires s.phase.Keys == jobs.Keys && NamesSound(s) && LocksSound(s)
  {
    && (forall c :: c in s.phase && HoldsName(s.phase[c]) ==>
          jobs[c].dest in s.fs.names && s.fs.names[jobs[c].dest] == s.phase[c].target)
    && (forall c :: c in s.phase && HoldsEmpty(s.phase[c]) ==> s.fs.inodes[s.phase[c].target].content == [])
  }

  ghost predicate TempsSound(jobs: Jobs, s: State)
    requires s.phase.Keys == jobs.Keys && NamesSound(s) && LocksSound(s)
  {
    forall c :: c in s.phase && HasTemp(s.phase[c]) ==> TempSound(jobs, s, c)
  }

  ghost predicate TempsApart(s: State) {
    forall c, d :: c in s.phase && d in s.phase && c != d && HasTemp(s.phase[c]) && HasTemp(s.phase[d]) ==> s.phase[c].temp != s.phase[d].temp
  }

  /** A creator's temporary file; its name may be gone, but is nobody else's. */
  ghost predicate TempSound(jobs: Jobs, s: State, c: Creator)
    requires c in s.phase && c in jobs && HasTemp(s.phase[c])
  {
    var p := s.phase[c];
    && p.temp.Temp? && p.tempIno in s.fs.inodes && (p.temp in s.fs.names ==> s.fs.names[p.temp] == p.tempIno)
    && s.fs.inodes[p.tempIno].boundAs == p.temp && s.fs.inodes[p.tempIno].maker == c
    && s.fs.inodes[p.tempIno].content <= jobs[c].content
  }

  /** A published creator's content is what its destination holds. */
  ghost predicate PublishedSound(jobs: Jobs, s: State)
    requires s.phase.Keys == jobs.Keys && NamesSound(s) && LocksSound(s)
  {
    forall c :: c in s.phase && s.phase[c].Published? ==>
      && jobs[c].content != [] && jobs[c].dest in s.fs.names
      && ContentOf(s, jobs[c].dest) == jobs[c].content
  }

  ghost predicate Inv(jobs: Jobs, s: State) {
    && GoodJobs(jobs) && s.phase.Keys == jobs.Keys
    && NamesSound(s) && LocksSound(s) && OwnersSound(jobs, s) && TempsSound(jobs, s) && TempsApart(s) && PublishedSound(jobs, s)
  }

  lemma InitInv(jobs: Jobs, s: State)
    requires Init(jobs, s) && GoodJobs(jobs)
    ensures Inv(jobs, s)
  {}

  function Created(s: State, n: Name, i: Ino, c: Creator): State {
    s.(fs := Fs(s.fs.names[n := i], s.fs.inodes[i := Inode([], Free, n, c)]))
  }

  lemma CreatedLocks(s: State, n: Name, i: Ino, c: Creator)
    requires LocksSound(s) && i !in s.fs.inodes
    ensures LocksSound(Created(s, n, i, c))
  {
    var s' := Created(s, n, i, c);
    forall j | j in s'.fs.inodes && s'.fs.inodes[j].lock.Held? ensures HeldRightly(s', j, s'.fs.inodes[j].lock.owner) {
      assert j != i && HeldRightly(s, j, s.fs.inodes[j].lock.owner);
    }
  }

  lemma CreatedTemps(jobs: Jobs, s: State, n: Name, i: Ino, c: Creator)
    requires Inv(jobs, s) && n !in s.fs.names && i !in s.fs.inodes && NotDrawn(s, n)
    requires NamesSound(Created(s, n, i, c)) && LocksSound(Created(s, n, i, c))
    ensures TempsSound(jobs, Created(s, n, i, c))
  {
    hide NamesSound, LocksSound, OwnersSound, TempsApart, PublishedSound;
    var s' := Created(s, n, i, c);
    forall d | d in s'.phase && HasTemp(s'.phase[d]) ensures TempSound(jobs, s', d) { assert TempSound(jobs, s, d); }
  }

  lemma CreatedOwners(jobs: Jobs, s: State, n: Name, i: Ino, c: Creator)
    requires Inv(jobs, s) && n !in s.fs.names && i !in s.fs.inodes
    requires NamesSound(Created(s, n, i, c)) && LocksSound(Created(s, n, i, c))
    ensures OwnersSound(jobs, Created(s, n, i, c)) && PublishedSound(jobs, Created(s, n, i, c))
  {
    hide TempsApart, TempsSound;
  }

  /** Creating a file under a free name disturbs nobody. */
  lemma CreateKeeps(jobs: Jobs, s: State, n: Name, i: Ino, c: Creator)
    requires Inv(jobs, s) && n !in s.fs.names && i !in s.fs.inodes && NotDrawn(s, n)
    ensures Inv(jobs, Created(s, n, i, c))
  {
    CreatedLocks(s, n, i, c);
    assert NamesSound(Created(s, n, i, c)) && TempsApart(Created(s, n, i, c)) by { hide LocksSound, OwnersSound, TempsSound, PublishedSound; }
    CreatedTemps(jobs, s, n, i, c);
    CreatedOwners(jobs, s, n, i, c);
    hide NamesSound, LocksSound, OwnersSound, TempsSound, TempsApart, PublishedSound;
  }

  /** A step that moves no name and no content, and lets nobody newly past a check,
      keeps everything that is not about locks. */
  ghost predicate Quietly(s: State, s': State) {
    && s'.phase.Keys == s.phase.Keys && s'.fs.names == s.fs.names && s'.fs.inodes.Keys == s.fs.inodes.Keys
    && (forall i :: i in s.fs.inodes ==> s'.fs.inodes[i].(lock := Free) == s.fs.inodes[i].(lock := Free))
    && (forall d :: d in s.phase ==>
          && (HoldsName(s'.phase[d]) ==> HoldsName(s.phase[d]) && s'.phase[d].target == s.phase[d].target)
          && (HoldsEmpty(s'.phase[d]) ==> HoldsEmpty(s.phase[d]))
          && (HasTemp(s'.phase[d]) ==> HasTemp(s.phase[d]) && s'.phase[d].temp == s.phase[d].temp && s'.phase[d].tempIno == s.phase[d].tempIno)
          && (s'.phase[d].Published? ==> s.phase[d].Published?))
  }

  lemma QuietlyKeeps(jobs: Jobs, s: State, s': State)
    requires Inv(jobs, s) && Quietly(s, s') && LocksSound(s')
    ensures Inv(jobs, s')
  {
    NamesStay(s, s');
    OwnersStay(jobs, s, s');
    TempsStay(jobs, s, s');
    PublishedStay(jobs, s, s');
    assert TempsApart(s') by { hide NamesSound, LocksSound, OwnersSound, TempsSound, PublishedSound; }
    hide NamesSound, LocksSound, OwnersSound, TempsSound, TempsApart, PublishedSound, Quietly;
  }

  lemma NamesStay(s: State, s': State)
    requires NamesSound(s) && Quietly(s, s')
    ensures NamesSound(s')
  {}

  lemma OwnersStay(jobs: Jobs, s: State, s': State)
    requires s.phase.Keys == jobs.Keys && NamesSound(s) && LocksSound(s) && OwnersSound(jobs, s)
    requires Quietly(s, s') && s'.phase.Keys == jobs.Keys && NamesSound(s') && LocksSound(s')
    ensures OwnersSound(jobs, s')
  {}

  lemma TempsStay(jobs: Jobs, s: State, s': State)
    requires s.phase.Keys == jobs.Keys && NamesSound(s) && LocksSound(s) && TempsSound(jobs, s)
    requires s'.phase.Keys == jobs.Keys && NamesSound(s') && LocksSound(s')
    requires s'.fs.names == s.fs.names && s'.fs.inodes.Keys == s.fs.inodes.Keys
    requires forall i :: i in s.fs.inodes ==> s'.fs.inodes[i].(lock := Free) == s.fs.inodes[i].(lock := Free)
    requires forall d :: d in s.phase && HasTemp(s'.phase[d]) ==>
      HasTemp(s.phase[d]) && s'.phase[d].temp == s.phase[d].temp && s'.phase[d].tempIno == s.phase[d].tempIno
    ensures TempsSound(jobs, s')
  {
    hide NamesSound, LocksSound;
    forall c | c in s'.phase && HasTemp(s'.phase[c]) ensures TempSound(jobs, s', c) {
      assert TempSound(jobs, s, c);
      var i := s.phase[c].tempIno;
      assert s'.fs.inodes[i].(lock := Free) == s.fs.inodes[i].(lock := Free);
    }
  }

  lemma PublishedStay(jobs: Jobs, s: State, s': State)
    requires s.phase.Keys == jobs.Keys && NamesSound(s) && LocksSound(s) && PublishedSound(jobs, s)
    requires s'.phase.Keys == jobs.Keys && NamesSound(s') && LocksSound(s')
    requires s'.fs.names == s.fs.names && s'.fs.inodes.Keys == s.fs.inodes.Keys
    requires forall i :: i in s.fs.inodes ==> s'.fs.inodes[i].(lock := Free) == s.fs.inodes[i].(lock := Free)
    requires forall d :: d in s.phase && s'.phase[d].Published? ==> s.phase[d].Published?
    ensures PublishedSound(jobs, s')
  {
    hide LocksSound;
    forall c | c in s'.phase && s'.phase[c].Published?
      ensures jobs[c].content != [] && jobs[c].dest in s'.fs.names && ContentOf(s', jobs[c].dest) == jobs[c].content
    {
      var i := s.fs.names[jobs[c].dest];
      assert s'.fs.inodes[i].(lock := Free) == s.fs.inodes[i].(lock := Free);
    }
  }

  lemma OpenedLocks(s: State, s': State, c: Creator, i: Ino)
    requires LocksSound(s) && c in s.phase && s.phase[c].Idle? && i in s.fs.inodes
    requires s' == s.(phase := s.phase[c := Opened(i)])
    ensures LocksSound(s')
  {
    forall j | j in s'.fs.inodes && s'.fs.inodes[j].lock.Held? ensures HeldRightly(s', j, s'.fs.inodes[j].lock.owner) {
      assert HeldRightly(s, j, s.fs.inodes[j].lock.owner);
    }
  }

  lemma OpenedQuietly(s: State, s': State, c: Creator, i: Ino)
    requires c in s.phase && s.phase[c].Idle? && s' == s.(phase := s.phase[c := Opened(i)])
    ensures Quietly(s, s')
  {}

  lemma OpenedKeeps(jobs: Jobs, s: State, s': State, c: Creator, i: Ino)
    requires Inv(jobs, s) && c in s.phase && s.phase[c].Idle? && i in s.fs.inodes
    requires s' == s.(phase := s.phase[c := Opened(i)])
    ensures Inv(jobs, s')
  {
    OpenedLocks(s, s', c, i);
    OpenedQuietly(s, s', c, i);
    hide LocksSound, Quietly;
    QuietlyKeeps(jobs, s, s');
  }

  lemma OpenKeeps(jobs: Jobs, s: State, s': State, c: Creator, i: Ino)
    requires Inv(jobs, s) && c in s.phase && c in jobs && OpenStep(jobs, s, s', c, i)
    ensures Inv(jobs, s')
  {
    hide Inv;
    var d := jobs[c].dest;
    if d in s.fs.names {
      InvNames(jobs, s);
      OpenedKeeps(jobs, s, s', c, s.fs.names[d]);
    } else {
      assert d.Dest? by { DestOfJob(jobs, s, c); }
      NoDestDrawn(jobs, s, d);
      CreateKeeps(jobs, s, d, i, c);
      OpenedKeeps(jobs, Created(s, d, i, c), s', c, i);
    }
  }

  lemma DestOfJob(jobs: Jobs, s: State, c: Creator)
    requires Inv(jobs, s) && c in jobs
    ensures jobs[c].dest.Dest?
  {}

  lemma NoDestDrawn(jobs: Jobs, s: State, n: Name)
    requires Inv(jobs, s) && n.Dest?
    ensures NotDrawn(s, n)
  {
    forall d | d in s.phase && HasTemp(s.phase[d]) ensures s.phase[d].temp != n { assert TempSound(jobs, s, d); }
  }

  lemma InvNames(jobs: Jobs, s: State)
    requires Inv(jobs, s)
    ensures NamesSound(s)
  {}

  lemma LockLocks(s: State, s': State, c: Creator)
    requires LocksSound(s) && c in s.phase && LockStep(s, s', c)
    ensures LocksSound(s')
  {
    forall j | j in s'.fs.inodes && s'.fs.inodes[j].lock.Held? ensures HeldRightly(s', j, s'.fs.inodes[j].lock.owner) {
      if j != s.phase[c].target { assert HeldRightly(s, j, s.fs.inodes[j].lock.owner); }
    }
  }

  lemma LockQuietly(s: State, s': State, c: Creator)
    requires c in s.phase && LockStep(s, s', c)
    ensures Quietly(s, s')
  {}

  lemma LockKeeps(jobs: Jobs, s: State, s': State, c: Creator)
    requires Inv(jobs, s) && c in s.phase && c in jobs && LockStep(s, s', c)
    ensures Inv(jobs, s')
  {
    LockLocks(s, s', c);
    LockQuietly(s, s', c);
    hide LockStep, LocksSound, Quietly;
    QuietlyKeeps(jobs, s, s');
  }

  lemma VerifyKeeps(jobs: Jobs, s: State, s': State, c: Creator)
    requires Inv(jobs, s) && c in s.phase && c in jobs && VerifyStep(jobs, s, s', c)
    ensures Inv(jobs, s')
  {
    CheckLocks(s, s', c);
    assert OwnersSound(jobs, s') by { hide LocksSound, TempsSound, TempsApart, PublishedSound; }
    CheckKeeps(jobs, s, s', c);
  }

  lemma EmptyKeeps(jobs: Jobs, s: State, s': State, c: Creator)
    requires Inv(jobs, s) && c in s.phase && c in jobs && EmptyStep(s, s', c)
    ensures Inv(jobs, s')
  {
    CheckLocks(s, s', c);
    assert OwnersSound(jobs, s') by { hide LocksSound, TempsSound, TempsApart, PublishedSound; }
    CheckKeeps(jobs, s, s', c);
  }

  /** Passing a check changes no more than the phase. */
  ghost predicate Checks(s: State, s': State, c: Creator) {
    && c in s.phase && (s.phase[c].Locked? || s.phase[c].Verified?)
    && s' == s.(phase := s.phase[c := if s.phase[c].Locked? then Verified(s.phase[c].target) else Reserved(s.phase[c].target)])
  }

  lemma CheckLocks(s: State, s': State, c: Creator)
    requires LocksSound(s) && Checks(s, s', c)
    ensures LocksSound(s')
  {}

  lemma CheckKeeps(jobs: Jobs, s: State, s': State, c: Creator)
    requires Inv(jobs, s) && Checks(s, s', c) && LocksSound(s') && s'.phase.Keys == jobs.Keys && NamesSound(s') && OwnersSound(jobs, s')
    ensures Inv(jobs, s')
  {
    hide NamesSound, LocksSound, OwnersSound;
    TempsStay(jobs, s, s');
    PublishedStay(jobs, s, s');
    assert TempsApart(s') by { hide TempsSound, PublishedSound; }
    hide TempsSound, PublishedSound, TempsApart;
  }

  lemma StagingLocks(s: State, s': State, c: Creator)
    requires LocksSound(s) && c in s.phase && s.phase[c].Reserved? && s'.fs == s.fs
    requires exists n, i :: s'.phase == s.phase[c := Staging(s.phase[c].target, n, i)]
    ensures LocksSound(s')
  {
    forall j | j in s'.fs.inodes && s'.fs.inodes[j].lock.Held? ensures HeldRightly(s', j, s'.fs.inodes[j].lock.owner) {
      assert HeldRightly(s, j, s.fs.inodes[j].lock.owner);
    }
  }

  lemma StagingTemps(jobs: Jobs, s: State, s': State, c: Creator, n: Name)
    requires Inv(jobs, s) && c in s.phase && n.Temp? && n in s.fs.names && s.fs.inodes[s.fs.names[n]].content == [] && s.fs.inodes[s.fs.names[n]].maker == c
    requires s.phase[c].Reserved? && s' == s.(phase := s.phase[c := Staging(s.phase[c].target, n, s.fs.names[n])]) && LocksSound(s')
    ensures NamesSound(s') && s'.phase.Keys == jobs.Keys && TempsSound(jobs, s')
  {
    hide LocksSound, OwnersSound, TempsApart, PublishedSound;
    forall d | d in s'.phase && HasTemp(s'.phase[d]) ensures TempSound(jobs, s', d) { if d != c { assert TempSound(jobs, s, d); } }
  }

  lemma StagingKeeps(jobs: Jobs, s: State, c: Creator, n: Name)
    requires Inv(jobs, s) && c in s.phase && s.phase[c].Reserved? && n.Temp? && n in s.fs.names && NotDrawn(s, n)
    requires s.fs.inodes[s.fs.names[n]].content == [] && s.fs.inodes[s.fs.names[n]].maker == c
    ensures Inv(jobs, s.(phase := s.phase[c := Staging(s.phase[c].target, n, s.fs.names[n])]))
  {
    var s' := s.(phase := s.phase[c := Staging(s.phase[c].target, n, s.fs.names[n])]);
    StagingLocks(s, s', c);
    assert OwnersSound(jobs, s') && PublishedSound(jobs, s') by { hide LocksSound, TempsSound, TempsApart; }
    StagingTemps(jobs, s, s', c, n);
    assert TempsApart(s') by { hide LocksSound, OwnersSound, TempsSound, PublishedSound; }
    hide LocksSound, OwnersSound, TempsSound, PublishedSound, TempsApart;
  }

  lemma TempKeeps(jobs: Jobs, s: State, s': State, c: Creator, r: nat, i: Ino)
    requires Inv(jobs, s) && c in s.phase && c in jobs && TempStep(s, s', c, r, i)
    ensures Inv(jobs, s')
  {
    hide Inv;
    CreateKeeps(jobs, s, Temp(r), i, c);
    StagingKeeps(jobs, Created(s, Temp(r), i, c), c, Temp(r));
  }

  lemma TempLockLocks(s: State, s': State, c: Creator)
    requires LocksSound(s) && c in s.phase && TempLockStep(s, s', c)
    ensures LocksSound(s')
  {
    forall j | j in s'.fs.inodes && s'.fs.inodes[j].lock.Held? ensures HeldRightly(s', j, s'.fs.inodes[j].lock.owner) {
      if j != s.phase[c].tempIno { assert HeldRightly(s, j, s.fs.inodes[j].lock.owner); }
    }
  }

  lemma TempLockQuietly(s: State, s': State, c: Creator)
    requires c in s.phase && TempLockStep(s, s', c)
    ensures Quietly(s, s')
  {}

  lemma TempLockKeeps(jobs: Jobs, s: State, s': State, c: Creator)
    requires Inv(jobs, s) && c in s.phase && c in jobs && TempLockStep(s, s', c)
    ensures Inv(jobs, s')
  {
    TempLockLocks(s, s', c);
    TempLockQuietly(s, s', c);
    hide TempLockStep, LocksSound, Quietly;
    QuietlyKeeps(jobs, s, s');
  }

  lemma CopyKeeps(jobs: Jobs, s: State, s': State, c: Creator)
    requires Inv(jobs, s) && c in s.phase && c in jobs && CopyStep(jobs, s, s', c)
    ensures Inv(jobs, s')
  {
    assert TempSound(jobs, s, c);
    assert NamesSound(s') && TempsApart(s') by { hide LocksSound, OwnersSound, TempsSound, PublishedSound; }
    assert LocksSound(s') by { hide NamesSound, OwnersSound, TempsSound, TempsApart, PublishedSound; }
    CopyElsewhere(jobs, s, s', c);
    CopyTemps(jobs, s, s', c);
    hide NamesSound, LocksSound, OwnersSound, TempsSound, TempsApart, PublishedSound, TempSound;
  }

  /** No destination is the file that is written. */
  lemma CopyElsewhere(jobs: Jobs, s: State, s': State, c: Creator)
    requires Inv(jobs, s) && c in s.phase && c in jobs && CopyStep(jobs, s, s', c) && TempSound(jobs, s, c)
    requires NamesSound(s') && LocksSound(s') && s'.phase.Keys == jobs.Keys
    ensures OwnersSound(jobs, s') && PublishedSound(jobs, s')
  {
    hide TempsSound, TempsApart, LocksSound;
    forall n | n in s.fs.names && n.Dest? ensures s.fs.names[n] != s.phase[c].tempIno {}
  }

  lemma CopyTemps(jobs: Jobs, s: State, s': State, c: Creator)
    requires Inv(jobs, s) && c in s.phase && c in jobs && CopyStep(jobs, s, s', c)
    requires NamesSound(s') && LocksSound(s') && s'.phase.Keys == jobs.Keys
    ensures TempsSound(jobs, s')
  {
    hide NamesSound, LocksSound, OwnersSound, TempsApart, PublishedSound;
    forall d | d in s'.phase && HasTemp(s'.phase[d]) ensures TempSound(jobs, s', d) { assert TempSound(jobs, s, d) && TempSound(jobs, s, c); }
  }

  /** No other creator is past the lock_name check of this destination. */
  lemma SoleOwner(jobs: Jobs, s: State, c: Creator, d: Creator)
    requires Inv(jobs, s) && c in s.phase && d in s.phase && HoldsName(s.phase[c]) && HoldsName(s.phase[d])
    requires jobs[c].dest == jobs[d].dest
    ensures c == d
  {}

  lemma RenameNames(jobs: Jobs, s: State, s': State, c: Creator)
    requires Inv(jobs, s) && c in s.phase && c in jobs && RenameStep(jobs, s, s', c)
    ensures NamesSound(s')
  {}

  lemma RenameLocks(jobs: Jobs, s: State, s': State, c: Creator)
    requires Inv(jobs, s) && c in s.phase && c in jobs && RenameStep(jobs, s, s', c)
    ensures LocksSound(s')
  {
    hide NamesSound, OwnersSound, TempsSound, PublishedSound;
  }

  lemma RenameOwners(jobs: Jobs, s: State, s': State, c: Creator)
    requires Inv(jobs, s) && c in s.phase && c in jobs && RenameStep(jobs, s, s', c)
    requires NamesSound(s') && LocksSound(s') && s'.phase.Keys == jobs.Keys
    ensures OwnersSound(jobs, s')
  {
    forall d | d in s'.phase && HoldsName(s'.phase[d]) ensures jobs[d].dest != jobs[c].dest {
      if jobs[d].dest == jobs[c].dest { SoleOwner(jobs, s, c, d); }
    }
    assert TempSound(jobs, s, c);
    hide TempsSound, TempsApart, PublishedSound;
  }

  lemma RenameTemps(jobs: Jobs, s: State, s': State, c: Creator)
    requires Inv(jobs, s) && c in s.phase && c in jobs && RenameStep(jobs, s, s', c)
    requires NamesSound(s') && LocksSound(s') && s'.phase.Keys == jobs.Keys
    ensures TempsSound(jobs, s')
  {
    hide NamesSound, LocksSound, OwnersSound, PublishedSound;
    forall d | d in s'.phase && HasTemp(s'.phase[d]) ensures TempSound(jobs, s', d) {
      assert TempSound(jobs, s, d) && TempSound(jobs, s, c) && s.phase[d].temp != s.phase[c].temp;
    }
  }

  /** Nobody publishes a destination twice: an owner's destination is still empty. */
  lemma OwnedIsUnpublished(jobs: Jobs, s: State, c: Creator, d: Creator)
    requires Inv(jobs, s) && c in s.phase && d in s.phase && HoldsEmpty(s.phase[c]) && s.phase[d].Published?
    ensures jobs[c].dest != jobs[d].dest
  {}

  lemma RenamePublished(jobs: Jobs, s: State, s': State, c: Creator)
    requires Inv(jobs, s) && c in s.phase && c in jobs && RenameStep(jobs, s, s', c)
    requires NamesSound(s') && LocksSound(s') && s'.phase.Keys == jobs.Keys
    ensures PublishedSound(jobs, s')
  {
    forall d | d in s'.phase && s'.phase[d].Published?
      ensures jobs[d].content != [] && jobs[d].dest in s'.fs.names && ContentOf(s', jobs[d].dest) == jobs[d].content
    {
      if d != c { OwnedIsUnpublished(jobs, s, c, d); }
    }
  }

  lemma RenameKeeps(jobs: Jobs, s: State, s': State, c: Creator)
    requires Inv(jobs, s) && c in s.phase && c in jobs && RenameStep(jobs, s, s', c)
    ensures Inv(jobs, s')
  {
    RenameNames(jobs, s, s', c);
    RenameLocks(jobs, s, s', c);
    assert s'.phase.Keys == jobs.Keys;
    RenameOwners(jobs, s, s', c);
    RenameTemps(jobs, s, s', c);
    RenamePublished(jobs, s, s', c);
    assert TempsApart(s') by { hide NamesSound, LocksSound, OwnersSound, TempsSound, PublishedSound; }
    hide TempsApart, RenameStep, NamesSound, LocksSound, OwnersSound, TempsSound, PublishedSound;
  }

  lemma StopLocks(s: State, s': State, c: Creator)
    requires LocksSound(s) && c in s.phase && StopStep(s, s', c)
    ensures LocksSound(s')
  {
    forall j | j in s'.fs.inodes && s'.fs.inodes[j].lock.Held? ensures HeldRightly(s', j, s'.fs.inodes[j].lock.owner) {
      assert HeldRightly(s, j, s.fs.inodes[j].lock.owner);
    }
  }

  lemma StopQuietly(s: State, s': State, c: Creator)
    requires c in s.phase && StopStep(s, s', c)
    ensures Quietly(s, s')
  {}

  lemma StopKeeps(jobs: Jobs, s: State, s': State, c: Creator)
    requires Inv(jobs, s) && c in s.phase && c in jobs && StopStep(s, s', c)
    ensures Inv(jobs, s')
  {
    StopLocks(s, s', c);
    StopQuietly(s, s', c);
    hide StopStep, LocksSound, Quietly;
    QuietlyKeeps(jobs, s, s');
  }

  lemma MovesKeep(jobs: Jobs, s: State, s': State, c: Creator)
    requires Inv(jobs, s) && Moves(jobs, s, s', c)
    ensures Inv(jobs, s')
  {
    hide Inv, LockStep, VerifyStep, EmptyStep, TempLockStep, CopyStep, RenameStep, StopStep, OpenStep, TempStep;
    if i :| OpenStep(jobs, s, s', c, i) { OpenKeeps(jobs, s, s', c, i); }
    else if LockStep(s, s', c) { LockKeeps(jobs, s, s', c); }
    else if VerifyStep(jobs, s, s', c) { VerifyKeeps(jobs, s, s', c); }
    else if EmptyStep(s, s', c) { EmptyKeeps(jobs, s, s', c); }
    else if r, i :| TempStep(s, s', c, r, i) { TempKeeps(jobs, s, s', c, r, i); }
    else if TempLockStep(s, s', c) { TempLockKeeps(jobs, s, s', c); }
    else if CopyStep(jobs, s, s', c) { CopyKeeps(jobs, s, s', c); }
    else if RenameStep(jobs, s, s', c) { RenameKeeps(jobs, s, s', c); }
    else { StopKeeps(jobs, s, s', c); }
  }

  /** Deleting an unlocked temporary file keeps the invariant, whosever it was. */
  lemma SweepKeeps(jobs: Jobs, s: State, s': State, r: nat)
    requires Inv(jobs, s) && SweepStep(s, s', r)
    ensures Inv(jobs, s')
  {
    assert GoodJobs(jobs);
    assert TempsSound(jobs, s') by {
      hide OwnersSound, PublishedSound;
      forall c | c in s'.phase && HasTemp(s'.phase[c]) ensures TempSound(jobs, s', c) { assert TempSound(jobs, s, c); }
    }
    hide TempsSound;
  }

  lemma NextKeeps(jobs: Jobs, s: State, s': State)
    requires Inv(jobs, s) && Next(jobs, s, s')
    ensures Inv(jobs, s')
  {
    hide Inv, Moves, SweepStep;
    if c :| Moves(jobs, s, s', c) {
      MovesKeep(jobs, s, s', c);
    } else {
      var r :| SweepStep(s, s', r);
      SweepKeeps(jobs, s, s', r);
    }
  }

  /** What one step can do to the file behind a destination: make it, empty, or replace
      an empty one by one creator's complete content; never touch a non-empty one. */
  ghost predicate DestChange(jobs: Jobs, s: State, s': State, c: Creator, n: Name)
    requires NamesSound(s) && NamesSound(s') && c in jobs && c in s'.phase
  {
    && (n in s.fs.names ==> n in s'.fs.names)
    && (n in s'.fs.names ==>
          || (n in s.fs.names && ContentOf(s', n) == ContentOf(s, n))
          || (n !in s.fs.names && ContentOf(s', n) == [])
          || (n in s.fs.names && ContentOf(s, n) == [] && n == jobs[c].dest && s'.phase[c].Published? && ContentOf(s', n) == jobs[c].content))
  }

  lemma MovesChange(jobs: Jobs, s: State, s': State, c: Creator, n: Name)
    requires Inv(jobs, s) && Inv(jobs, s') && Moves(jobs, s, s', c) && n.Dest?
    ensures NamesSound(s) && NamesSound(s') && c in jobs && c in s'.phase && DestChange(jobs, s, s', c, n)
  {
    InvNames(jobs, s);
    InvNames(jobs, s');
    hide Inv, NamesSound, LockStep, VerifyStep, EmptyStep, TempLockStep, CopyStep, RenameStep, StopStep, OpenStep, TempStep, DestChange;
    if i :| OpenStep(jobs, s, s', c, i) { OpenChange(jobs, s, s', c, i, n); }
    else if r, i :| TempStep(s, s', c, r, i) { TempChange(jobs, s, s', c, r, i, n); }
    else if CopyStep(jobs, s, s', c) { CopyChange(jobs, s, s', c, n); }
    else if RenameStep(jobs, s, s', c) { RenameChange(jobs, s, s', c, n); }
    else { NoChange(jobs, s, s', c, n); }
  }

  lemma OpenChange(jobs: Jobs, s: State, s': State, c: Creator, i: Ino, n: Name)
    requires NamesSound(s) && NamesSound(s') && c in s.phase && c in jobs && OpenStep(jobs, s, s', c, i) && n.Dest?
    ensures c in s'.phase && DestChange(jobs, s, s', c, n)
  {}

  lemma TempChange(jobs: Jobs, s: State, s': State, c: Creator, r: nat, i: Ino, n: Name)
    requires NamesSound(s) && NamesSound(s') && c in s.phase && c in jobs && TempStep(s, s', c, r, i) && n.Dest?
    ensures c in s'.phase && DestChange(jobs, s, s', c, n)
  {}

  lemma NoChange(jobs: Jobs, s: State, s': State, c: Creator, n: Name)
    requires NamesSound(s) && NamesSound(s') && c in s.phase && c in jobs && n.Dest?
    requires LockStep(s, s', c) || VerifyStep(jobs, s, s', c) || EmptyStep(s, s', c) || TempLockStep(s, s', c) || StopStep(s, s', c)
    ensures c in s'.phase && DestChange(jobs, s, s', c, n)
  {}

  lemma SweepChange(s: State, s': State, r: nat, n: Name)
    requires NamesSound(s) && NamesSound(s') && SweepStep(s, s', r) && n.Dest?
    ensures s'.phase == s.phase && (n in s'.fs.names <==> n in s.fs.names) && (n in s.fs.names ==> ContentOf(s', n) == ContentOf(s, n))
  {}

  lemma CopyChange(jobs: Jobs, s: State, s': State, c: Creator, n: Name)
    requires Inv(jobs, s) && Inv(jobs, s') && c in s.phase && c in jobs && CopyStep(jobs, s, s', c) && n.Dest?
    ensures c in s'.phase && DestChange(jobs, s, s', c, n)
  {
    assert TempSound(jobs, s, c);
    hide LocksSound, OwnersSound, TempsSound, TempsApart, PublishedSound;
  }

  lemma RenameChange(jobs: Jobs, s: State, s': State, c: Creator, n: Name)
    requires Inv(jobs, s) && Inv(jobs, s') && c in s.phase && c in jobs && RenameStep(jobs, s, s', c) && n.Dest?
    ensures c in s'.phase && DestChange(jobs, s, s', c, n)
  {
    assert TempSound(jobs, s, c);
    hide PublishedSound, LocksSound, TempsSound, TempsApart;
  }

  // ---- Whole runs ------------------------------------------------------------------

  /** Every state of every run, with crashes anywhere, satisfies the invariant. */
  lemma {:induction false} AlwaysInv(jobs: Jobs, run: seq<State>, k: nat)
    requires GoodJobs(jobs) && Run(jobs, run) && Init(jobs, run[0]) && k < |run|
    ensures Inv(jobs, run[k])
  {
    if k == 0 {
      InitInv(jobs, run[0]);
    } else {
      AlwaysInv(jobs, run, k - 1);
      assert Next(jobs, run[k-1], run[(k-1)+1]);
      NextKeeps(jobs, run[k-1], run[k]);
    }
  }

  /** At most one creator is past new() on a destination; it holds the lock on the inode
      the name denotes, and that file is still empty. */
  lemma OneOwner(jobs: Jobs, run: seq<State>, k: nat, c: Creator, d: Creator)
    requires GoodJobs(jobs) && Run(jobs, run) && Init(jobs, run[0]) && k < |run|
    requires c in jobs && d in jobs && jobs[c].dest == jobs[d].dest
    requires c in run[k].phase && d in run[k].phase && PastNew(run[k].phase[c]) && PastNew(run[k].phase[d])
    ensures c == d
    ensures var s, n := run[k], jobs[c].dest;
      && n in s.fs.names && s.fs.names[n] in s.fs.inodes
      && s.fs.inodes[s.fs.names[n]].lock == Held(c) && ContentOf(s, n) == []
  {
    AlwaysInv(jobs, run, k);
    SoleOwner(jobs, run[k], c, d);
  }

  /** A destination once non-empty keeps its content for ever. */
  lemma {:induction false} OnceWritten(jobs: Jobs, run: seq<State>, i: nat, j: nat, n: Name)
    requires GoodJobs(jobs) && Run(jobs, run) && Init(jobs, run[0]) && i <= j < |run| && n.Dest?
    requires n in run[i].fs.names && run[i].fs.names[n] in run[i].fs.inodes && ContentOf(run[i], n) != []
    ensures n in run[j].fs.names && run[j].fs.names[n] in run[j].fs.inodes && ContentOf(run[j], n) == ContentOf(run[i], n)
    decreases j
  {
    hide Next, Inv, Init;
    if i < j {
      OnceWritten(jobs, run, i, j - 1, n);
      AlwaysInv(jobs, run, j - 1);
      assert Next(jobs, run[j-1], run[(j-1)+1]);
      NonEmptyStays(jobs, run[j-1], run[j], n);
    }
  }

  lemma {:induction false} NonEmptyStays(jobs: Jobs, s: State, s': State, n: Name)
    requires Inv(jobs, s) && Next(jobs, s, s') && n.Dest?
    requires n in s.fs.names && ContentOf(s, n) != []
    ensures n in s'.fs.names && s'.fs.names[n] in s'.fs.inodes && ContentOf(s', n) == ContentOf(s, n)
  {
    hide Moves, LocksSound, OwnersSound, TempsSound, PublishedSound;
    NextKeeps(jobs, s, s');
    hide SweepStep;
    if c :| Moves(jobs, s, s', c) {
      MovesChange(jobs, s, s', c, n);
    } else {
      var r :| SweepStep(s, s', r);
      SweepChange(s, s', r, n);
    }
  }

  lemma MovesHasCreator(jobs: Jobs, s: State, s': State, c: Creator)
    requires Moves(jobs, s, s', c)
    ensures c in jobs && c in s.phase
  {}

  /** A non-empty destination was there before the run or is some creator's complete
      content, and that creator has renamed its temporary file there. */
  lemma {:induction false} OnlyComplete(jobs: Jobs, run: seq<State>, k: nat, n: Name)
    requires GoodJobs(jobs) && Run(jobs, run) && Init(jobs, run[0]) && k < |run| && n.Dest?
    requires n in run[k].fs.names && run[k].fs.names[n] in run[k].fs.inodes && ContentOf(run[k], n) != []
    ensures || (n in run[0].fs.names && run[0].fs.names[n] in run[0].fs.inodes && ContentOf(run[0], n) == ContentOf(run[k], n))
            || (exists c :: c in jobs && c in run[k].phase && run[k].phase[c].Published? && jobs[c].dest == n && ContentOf(run[k], n) == jobs[c].content)
  {
    if k > 0 {
      AlwaysInv(jobs, run, k - 1);
      AlwaysInv(jobs, run, k);
      assert Next(jobs, run[k-1], run[(k-1)+1]);
      var was, now := run[k-1], run[k];
      InvNames(jobs, was);
      InvNames(jobs, now);
      hide Inv, Moves, SweepStep, NamesSound;
      if c :| Moves(jobs, was, now, c) {
        MovesChange(jobs, was, now, c, n);
        if n in was.fs.names && was.fs.names[n] in was.fs.inodes && ContentOf(was, n) == ContentOf(now, n) {
          OnlyComplete(jobs, run, k - 1, n);
          if d :| d in jobs && d in was.phase && was.phase[d].Published? && jobs[d].dest == n {
            PublishedStays(jobs, was, now, c, d);
          }
        }
      } else {
        var r :| SweepStep(was, now, r);
        SweepChange(was, now, r, n);
        OnlyComplete(jobs, run, k - 1, n);
      }
    }
  }

  lemma PublishedStays(jobs: Jobs, s: State, s': State, c: Creator, d: Creator)
    requires Moves(jobs, s, s', c) && d in s.phase && s.phase[d].Published?
    ensures d in s'.phase && s'.phase[d].Published?
  {}

  // ---- An abandoned destination can be claimed again --------------------------------

  ghost predicate Solo(jobs: Jobs, run: seq<State>, c: Creator) {
    |run| > 0 && forall k :: 0 <= k < |run| - 1 ==> Moves(jobs, run[k], run[k+1], c)
  }

  ghost predicate Claimable(s: State, n: Name) {
    n in s.fs.names ==> s.fs.names[n] in s.fs.inodes && ContentOf(s, n) == [] && s.fs.inodes[s.fs.names[n]].lock.Free?
  }

  lemma {:induction false} Above(s: set<nat>) returns (b: nat)
    ensures forall x :: x in s ==> x < b
  {
    if s == {} {
      b := 0;
    } else {
      var x :| x in s;
      var rest := Above(s - {x});
      b := if x < rest then rest else x + 1;
      forall y | y in s ensures y < b { assert y == x || y in s - {x}; }
    }
  }

  /** Two solo runs in sequence. */
  lemma Chain(jobs: Jobs, a: seq<State>, b: seq<State>, c: Creator) returns (run: seq<State>)
    requires Solo(jobs, a, c) && Solo(jobs, b, c) && a[|a|-1] == b[0]
    ensures Solo(jobs, run, c) && run[0] == a[0] && run[|run|-1] == b[|b|-1]
  {
    run := a + b[1..];
    forall k | 0 <= k < |run| - 1 ensures Moves(jobs, run[k], run[k+1], c) {
      if k + 1 < |a| {
      } else {
        assert run[k] == b[k + 1 - |a|] && run[k+1] == b[k + 2 - |a|];
        assert Moves(jobs, b[k + 1 - |a|], b[(k + 1 - |a|) + 1], c);
      }
    }
  }

  lemma One(jobs: Jobs, s: State, s': State, c: Creator) returns (run: seq<State>)
    requires Moves(jobs, s, s', c)
    ensures Solo(jobs, run, c) && run[0] == s && run[|run|-1] == s'
  {
    run := [s, s'];
  }

  /** From a claimable destination to a reserved one. */
  lemma Reserve(jobs: Jobs, s: State, c: Creator) returns (run: seq<State>)
    requires Inv(jobs, s) && c in s.phase && s.phase[c].Idle? && Claimable(s, jobs[c].dest)
    ensures Solo(jobs, run, c) && run[0] == s
    ensures c in run[|run|-1].phase && run[|run|-1].phase[c].Reserved?
    ensures forall k :: 0 <= k < |run| - 1 ==> c in run[k].phase && !run[k].phase[c].Writing?
    ensures forall n: Name :: n.Dest? && n != jobs[c].dest && Claimable(s, n) ==> Claimable(run[|run|-1], n)
  {
    var n := jobs[c].dest;
    var i := Above(s.fs.inodes.Keys);
    var t := if n in s.fs.names then s.fs.names[n] else i;
    var s1 := if n in s.fs.names then s.(phase := s.phase[c := Opened(t)])
      else State(Fs(s.fs.names[n := i], s.fs.inodes[i := Inode([], Free, n, c)]), s.phase[c := Opened(i)]);
    assert OpenStep(jobs, s, s1, c, i);
    var s2 := State(s1.fs.(inodes := s1.fs.inodes[t := s1.fs.inodes[t].(lock := Held(c))]), s1.phase[c := Locked(t)]);
    assert LockStep(s1, s2, c);
    var s3 := s2.(phase := s2.phase[c := Verified(t)]);
    assert VerifyStep(jobs, s2, s3, c);
    var s4 := s3.(phase := s3.phase[c := Reserved(t)]);
    assert EmptyStep(s3, s4, c);
    run := [s, s1, s2, s3, s4];
  }

  lemma Draw(s: State) returns (r: nat, i: Ino)
    ensures Temp(r) !in s.fs.names && NotDrawn(s, Temp(r)) && i !in s.fs.inodes
  {
    var drawn := set d | d in s.phase && HasTemp(s.phase[d]) :: s.phase[d].temp;
    var taken := set n | n in s.fs.names.Keys + drawn && n.Temp? :: n.random;
    r := Above(taken);
    i := Above(s.fs.inodes.Keys);
    assert forall n :: n in s.fs.names.Keys + drawn && n.Temp? ==> n.random in taken;
    assert forall d :: d in s.phase && HasTemp(s.phase[d]) ==> s.phase[d].temp in drawn;
    assert Temp(r).random == r;
  }

  /** From a reserved destination to a locked, empty temporary file. */
  lemma Stage(jobs: Jobs, s: State, c: Creator) returns (run: seq<State>)
    requires c in jobs && c in s.phase && s.phase[c].Reserved?
    ensures Solo(jobs, run, c) && run[0] == s
    ensures forall k :: 0 <= k < |run| - 1 ==> c in run[k].phase && !run[k].phase[c].Writing?
    ensures forall n: Name :: n.Dest? && Claimable(s, n) ==> Claimable(run[|run|-1], n)
    ensures ReadyToCopy(jobs, run[|run|-1], c) && Copied(run[|run|-1], c) == []
  {
    var r, i := Draw(s);
    var s1 := State(Fs(s.fs.names[Temp(r) := i], s.fs.inodes[i := Inode([], Free, Temp(r), c)]),
                    s.phase[c := Staging(s.phase[c].target, Temp(r), i)]);
    assert TempStep(s, s1, c, r, i);
    var s2 := State(s1.fs.(inodes := s1.fs.inodes[i := s1.fs.inodes[i].(lock := Held(c))]),
                    s1.phase[c := Writing(s1.phase[c].target, Temp(r), i)]);
    assert TempLockStep(s1, s2, c);
    run := [s, s1, s2];
  }

  ghost predicate ReadyToCopy(jobs: Jobs, s: State, c: Creator) {
    && c in jobs && c in s.phase && s.phase[c].Writing? && s.phase[c].tempIno in s.fs.inodes
    && s.phase[c].temp in s.fs.names && s.fs.names[s.phase[c].temp] == s.phase[c].tempIno
    && s.fs.inodes[s.phase[c].tempIno].content <= jobs[c].content
  }

  ghost function Copied(s: State, c: Creator): Bytes
    requires c in s.phase && s.phase[c].Writing? && s.phase[c].tempIno in s.fs.inodes
  {
    s.fs.inodes[s.phase[c].tempIno].content
  }

  lemma {:induction false} CopyAll(jobs: Jobs, s: State, c: Creator) returns (run: seq<State>)
    requires ReadyToCopy(jobs, s, c)
    ensures Solo(jobs, run, c) && run[0] == s
    ensures ReadyToCopy(jobs, run[|run|-1], c) && Copied(run[|run|-1], c) == jobs[c].content
    decreases |jobs[c].content| - |Copied(s, c)|
  {
    if Copied(s, c) == jobs[c].content {
      run := [s];
    } else {
      var i, done := s.phase[c].tempIno, Copied(s, c);
      var s' := s.(fs := s.fs.(inodes := s.fs.inodes[i := s.fs.inodes[i].(content := jobs[c].content[..|done| + 1])]));
      assert CopyStep(jobs, s, s', c);
      var first := One(jobs, s, s', c);
      var rest := CopyAll(jobs, s', c);
      run := Chain(jobs, first, rest, c);
    }
  }

  /** An empty destination with no live lock holder can always be claimed again: a new
      creator left alone gets all the way to publishing its content there. */
  lemma Reclaim(jobs: Jobs, s: State, c: Creator) returns (run: seq<State>)
    requires Inv(jobs, s) && c in s.phase && s.phase[c].Idle? && Claimable(s, jobs[c].dest) && jobs[c].content != []
    ensures Solo(jobs, run, c) && run[0] == s
    ensures var last := run[|run|-1]; c in last.phase && last.phase[c].Published?
    ensures var last, n := run[|run|-1], jobs[c].dest;
      n in last.fs.names && last.fs.names[n] in last.fs.inodes && ContentOf(last, n) == jobs[c].content
  {
    var a := Reserve(jobs, s, c);
    var b := Stage(jobs, a[|a|-1], c);
    var ab := Chain(jobs, a, b, c);
    var d := CopyAll(jobs, b[|b|-1], c);
    var abd := Chain(jobs, ab, d, c);
    var e := Publish(jobs, d[|d|-1], c);
    run := Chain(jobs, abd, e, c);
  }

  lemma Publish(jobs: Jobs, s: State, c: Creator) returns (run: seq<State>)
    requires ReadyToCopy(jobs, s, c) && Copied(s, c) == jobs[c].content != []
    ensures Solo(jobs, run, c) && run[0] == s
    ensures var last := run[|run|-1]; c in last.phase && last.phase[c].Published?
    ensures var last, n := run[|run|-1], jobs[c].dest;
      n in last.fs.names && last.fs.names[n] in last.fs.inodes && ContentOf(last, n) == jobs[c].content
  {
    var i := s.phase[c].tempIno;
    var s' := State(Unlock(Fs((s.fs.names - {s.phase[c].temp})[jobs[c].dest := i],
                              s.fs.inodes[i := s.fs.inodes[i].(boundAs := jobs[c].dest)]), c), s.phase[c := Published]);
    assert RenameStep(jobs, s, s', c);
    run := One(jobs, s, s', c);
  }

  lemma FreshStart(jobs: Jobs)
    ensures Init(jobs, State(Fs(map[], map[]), map c | c in jobs :: Idle))
  {}

  /** From every possible start some run publishes, so that what is said about all runs is
      about something. */
  lemma SomeRunPublishes(jobs: Jobs, s: State, c: Creator) returns (run: seq<State>)
    requires GoodJobs(jobs) && Init(jobs, s) && c in jobs && jobs[c].content != [] && Claimable(s, jobs[c].dest)
    ensures Run(jobs, run) && run[0] == s
    ensures var last, n := run[|run|-1], jobs[c].dest;
      && c in last.phase && last.phase[c].Published?
      && n in last.fs.names && last.fs.names[n] in last.fs.inodes && ContentOf(last, n) == jobs[c].content
  {
    InitInv(jobs, s);
    hide Moves, Inv, Claimable;
    run := Reclaim(jobs, s, c);
    forall k | 0 <= k < |run| - 1 ensures Next(jobs, run[k], run[k + 1]) { assert Moves(jobs, run[k], run[k+1], c); }
  }

  // ---- Temporary files without a lock ------------------------------------------------------

  /** The temporary file of this creator is where it was put. */
  predicate HasItsTemp(s: State, c: Creator) { c in s.phase && PastNew(s.phase[c]) && s.phase[c].temp in s.fs.names }

  /** In every reachable state a temporary file without a lock is not that of a creator
      past new(); if it is anybody's, then of one that has made it and not yet locked it. */
  lemma UnlockedTemp(jobs: Jobs, run: seq<State>, k: nat, r: nat)
    requires GoodJobs(jobs) && Run(jobs, run) && Init(jobs, run[0]) && k < |run|
    requires Temp(r) in run[k].fs.names && run[k].fs.names[Temp(r)] in run[k].fs.inodes && run[k].fs.inodes[run[k].fs.names[Temp(r)]].lock.Free?
    ensures forall c :: c in run[k].phase && HasTemp(run[k].phase[c]) && run[k].phase[c].temp == Temp(r) ==> run[k].phase[c].Staging?
  {
    AlwaysInv(jobs, run, k);
    hide Run, Next, Init;
    forall c | c in run[k].phase && PastNew(run[k].phase[c]) ensures run[k].phase[c].temp != Temp(r) {
      assert TempSound(jobs, run[k], c);
    }
  }

  /** Past new() a creator holds the lock of its temporary file. */
  lemma WriterHoldsTemp(jobs: Jobs, run: seq<State>, k: nat, c: Creator)
    requires GoodJobs(jobs) && Run(jobs, run) && Init(jobs, run[0]) && k < |run|
    requires c in run[k].phase && PastNew(run[k].phase[c])
    ensures run[k].phase[c].tempIno in run[k].fs.inodes && run[k].fs.inodes[run[k].phase[c].tempIno].lock == Held(c)
    ensures HasItsTemp(run[k], c) ==> run[k].fs.names[run[k].phase[c].temp] == run[k].phase[c].tempIno
  {
    AlwaysInv(jobs, run, k);
    hide Run, Next, Init;
    assert TempSound(jobs, run[k], c);
  }

  /** Deleting such a file takes nothing from a creator past new() and touches no
      destination. */
  lemma SweepIsHarmless(jobs: Jobs, s: State, s': State, r: nat)
    requires Inv(jobs, s) && SweepStep(s, s', r)
    ensures s'.phase == s.phase && forall c :: HasItsTemp(s, c) ==> HasItsTemp(s', c)
    ensures forall n :: n in s.fs.names && n.Dest? ==> n in s'.fs.names && s'.fs.names[n] == s.fs.names[n]
    ensures s'.fs.inodes == s.fs.inodes
  {
    forall c | HasItsTemp(s, c) ensures s.phase[c].temp != Temp(r) { assert TempSound(jobs, s, c); }
  }

  lemma StepKeepsTemp(jobs: Jobs, s: State, s': State, c: Creator)
    requires Inv(jobs, s) && Next(jobs, s, s') && HasItsTemp(s, c)
    ensures c in s'.phase && (HasItsTemp(s', c) || s'.phase[c].Published? || s'.phase[c].Stopped?)
  {
    hide Inv, Moves, SweepStep;
    if d :| Moves(jobs, s, s', d) {
      MoveKeepsTemp(jobs, s, s', c, d);
    } else {
      var r :| SweepStep(s, s', r);
      SweepIsHarmless(jobs, s, s', r);
    }
  }

  lemma MoveKeepsTemp(jobs: Jobs, s: State, s': State, c: Creator, d: Creator)
    requires Inv(jobs, s) && Moves(jobs, s, s', d) && HasItsTemp(s, c)
    ensures c in s'.phase && (HasItsTemp(s', c) || s'.phase[c].Published? || s'.phase[c].Stopped?)
    ensures c != d ==> s'.phase[c] == s.phase[c] && HasItsTemp(s', c)
  {
    hide NamesSound, LocksSound, OwnersSound, PublishedSound;
    assert TempSound(jobs, s, c);
    assert c != d && HasTemp(s.phase[d]) ==> s.phase[c].temp != s.phase[d].temp;
    hide TempsSound, TempsApart;
  }

  /** Over whole runs: once past new() with its temporary file in place, a creator has it
      until it publishes or stops, whoever deletes unlocked files meanwhile. */
  lemma {:induction false} OnceStagedKept(jobs: Jobs, run: seq<State>, i: nat, j: nat, c: Creator)
    requires GoodJobs(jobs) && Run(jobs, run) && Init(jobs, run[0]) && i <= j < |run| && HasItsTemp(run[i], c)
    ensures c in run[j].phase && (HasItsTemp(run[j], c) || run[j].phase[c].Published? || run[j].phase[c].Stopped?)
    decreases j
  {
    hide Next, Inv, Init;
    if i < j {
      OnceStagedKept(jobs, run, i, j - 1, c);
      AlwaysInv(jobs, run, j - 1);
      assert Next(jobs, run[j-1], run[(j-1)+1]);
      if HasItsTemp(run[j-1], c) { StepKeepsTemp(jobs, run[j-1], run[j], c); } else { EndStays(jobs, run[j-1], run[j], c); }
    }
  }

  lemma EndStays(jobs: Jobs, s: State, s': State, c: Creator)
    requires Next(jobs, s, s') && c in s.phase && (s.phase[c].Published? || s.phase[c].Stopped?)
    ensures c in s'.phase && s'.phase[c] == s.phase[c]
  {
    if d :| Moves(jobs, s, s', d) { EndMoves(jobs, s, s', c, d); }
  }

  lemma EndMoves(jobs: Jobs, s: State, s': State, c: Creator, d: Creator)
    requires Moves(jobs, s, s', d) && c in s.phase && (s.phase[c].Published? || s.phase[c].Stopped?)
    ensures c in s'.phase && s'.phase[c] == s.phase[c]
  {}

  // ---- The window in which a temporary file has no lock yet -----------------------------------

  /** Its temporary file is gone. */
  predicate LostItsTemp(s: State, c: Creator) { c in s.phase && HasTemp(s.phase[c]) && s.phase[c].temp !in s.fs.names }

  lemma LostStep(jobs: Jobs, s: State, s': State, c: Creator)
    requires Next(jobs, s, s') && LostItsTemp(s, c)
    requires forall d :: d in jobs ==> jobs[d].dest != s.phase[c].temp
    ensures LostItsTemp(s', c) || (c in s'.phase && s'.phase[c].Stopped?)
    ensures LostItsTemp(s', c) ==> s'.phase[c].temp == s.phase[c].temp
  {
    hide Moves;
    if d :| Moves(jobs, s, s', d) { LostMove(jobs, s, s', c, d); }
  }

  lemma LostMove(jobs: Jobs, s: State, s': State, c: Creator, d: Creator)
    requires Moves(jobs, s, s', d) && LostItsTemp(s, c)
    requires forall d :: d in jobs ==> jobs[d].dest != s.phase[c].temp
    ensures LostItsTemp(s', c) || (c in s'.phase && s'.phase[c].Stopped?)
    ensures LostItsTemp(s', c) ==> s'.phase[c].temp == s.phase[c].temp
  {}

  /** A creator whose temporary file was deleted never publishes. */
  lemma {:induction false} LostForever(jobs: Jobs, run: seq<State>, i: nat, j: nat, c: Creator)
    requires GoodJobs(jobs) && Run(jobs, run) && Init(jobs, run[0]) && i <= j < |run| && LostItsTemp(run[i], c)
    ensures LostItsTemp(run[j], c) || (c in run[j].phase && run[j].phase[c].Stopped?)
    ensures LostItsTemp(run[j], c) ==> run[j].phase[c].temp == run[i].phase[c].temp
    decreases j
  {
    hide Next, Inv, Init;
    AlwaysInv(jobs, run, i);
    TempIsNoDest(jobs, run[i], c);
    if i < j {
      LostForever(jobs, run, i, j - 1, c);
      assert Next(jobs, run[j-1], run[(j-1)+1]);
      if LostItsTemp(run[j-1], c) { LostStep(jobs, run[j-1], run[j], c); } else { EndStays(jobs, run[j-1], run[j], c); }
    }
  }

  lemma TempIsNoDest(jobs: Jobs, s: State, c: Creator)
    requires Inv(jobs, s) && c in s.phase && HasTemp(s.phase[c])
    ensures forall d :: d in jobs ==> jobs[d].dest != s.phase[c].temp
  {
    assert TempSound(jobs, s, c);
  }

  /** A creator past new() can still publish, left alone, if and only if its temporary file
      is in place and it has content to write. */
  lemma FinishesIff(jobs: Jobs, s: State, c: Creator)
    requires Inv(jobs, s) && c in s.phase && PastNew(s.phase[c])
    ensures (exists run :: Solo(jobs, run, c) && run[0] == s && IsPublished(run[|run|-1], c)) <==> HasItsTemp(s, c) && jobs[c].content != []
  {
    hide Moves, NamesSound, LocksSound, OwnersSound, PublishedSound;
    if HasItsTemp(s, c) && jobs[c].content != [] {
      assert TempSound(jobs, s, c);
      var a := CopyAll(jobs, s, c);
      var b := Publish(jobs, a[|a|-1], c);
      var run := Chain(jobs, a, b, c);
    }
    forall run | Solo(jobs, run, c) && run[0] == s && IsPublished(run[|run|-1], c) ensures HasItsTemp(s, c) && jobs[c].content != [] {
      SoloPublishes(jobs, run, c);
    }
  }

  predicate IsPublished(s: State, c: Creator) { c in s.phase && s.phase[c].Published? }

  lemma {:induction false} SoloPublishes(jobs: Jobs, run: seq<State>, c: Creator)
    requires Solo(jobs, run, c) && Inv(jobs, run[0]) && c in run[0].phase && PastNew(run[0].phase[c]) && IsPublished(run[|run|-1], c)
    ensures HasItsTemp(run[0], c) && c in jobs && jobs[c].content != []
  {
    hide Inv, Moves;
    assert Moves(jobs, run[0], run[0+1], c);
    MovesKeep(jobs, run[0], run[1], c);
    var rest := run[1..];
    forall k | 0 <= k < |rest| - 1 ensures Moves(jobs, rest[k], rest[k+1], c) { assert Moves(jobs, run[k+1], run[(k+1)+1], c); }
    WriterMoves(jobs, run[0], run[1], c);
    if PastNew(run[1].phase[c]) {
      SoloPublishes(jobs, rest, c);
    } else if |rest| > 1 {
      assert Moves(jobs, rest[0], rest[0+1], c);
      EndMovesNot(jobs, rest[0], rest[1], c);
    }
  }

  lemma WriterMoves(jobs: Jobs, s: State, s': State, c: Creator)
    requires Moves(jobs, s, s', c) && c in s.phase && PastNew(s.phase[c])
    ensures c in jobs && c in s'.phase && (PastNew(s'.phase[c]) || s'.phase[c].Published? || s'.phase[c].Stopped?)
    ensures PastNew(s'.phase[c]) ==> (HasItsTemp(s', c) <==> HasItsTemp(s, c))
    ensures s'.phase[c].Published? ==> HasItsTemp(s, c) && jobs[c].content != []
  {}

  lemma EndMovesNot(jobs: Jobs, s: State, s': State, c: Creator)
    requires Moves(jobs, s, s', c)
    ensures c in s.phase && !s.phase[c].Published? && !s.phase[c].Stopped?
  {}

  /** And it can happen: from every start with a claimable destination some run deletes the
      temporary file between its making and its locking, and new() returns all the same. */
  lemma SomeRunLosesTemp(jobs: Jobs, s: State, c: Creator) returns (run: seq<State>)
    requires GoodJobs(jobs) && Init(jobs, s) && c in jobs && Claimable(s, jobs[c].dest)
    ensures Run(jobs, run) && run[0] == s
    ensures var last := run[|run|-1]; c in last.phase && PastNew(last.phase[c]) && LostItsTemp(last, c)
  {
    InitInv(jobs, s);
    var a := Reserve(jobs, s, c);
    var end := SweptInTheMiddle(jobs, a[|a|-1], c);
    run := a + end[1..];
    hide Moves, Inv, Claimable, SweepStep;
    forall k | 0 <= k < |run| - 1 ensures Next(jobs, run[k], run[k + 1]) {
      if k + 1 < |a| {
        assert Moves(jobs, a[k], a[k+1], c);
      } else {
        assert run[k] == end[k + 1 - |a|] && run[k+1] == end[(k + 1 - |a|) + 1];
      }
    }
  }

  lemma SweptInTheMiddle(jobs: Jobs, s: State, c: Creator) returns (run: seq<State>)
    requires c in jobs && c in s.phase && s.phase[c].Reserved?
    ensures |run| > 0 && run[0] == s && forall k :: 0 <= k < |run| - 1 ==> Next(jobs, run[k], run[k+1])
    ensures var last := run[|run|-1]; c in last.phase && PastNew(last.phase[c]) && LostItsTemp(last, c)
  {
    var r, i := Draw(s);
    var s1 := State(Created(s, Temp(r), i, c).fs, s.phase[c := Staging(s.phase[c].target, Temp(r), i)]);
    assert TempStep(s, s1, c, r, i);
    var s2 := s1.(fs := s1.fs.(names := s1.fs.names - {Temp(r)}));
    assert SweepStep(s1, s2, r);
    var s3 := State(s2.fs.(inodes := s2.fs.inodes[i := s2.fs.inodes[i].(lock := Held(c))]), s2.phase[c := Writing(s.phase[c].target, Temp(r), i)]);
    assert TempLockStep(s2, s3, c);
    run := [s, s1, s2, s3];
    assert Moves(jobs, s, s1, c) && Moves(jobs, s2, s3, c);
    hide Moves, SweepStep;
  }
}
