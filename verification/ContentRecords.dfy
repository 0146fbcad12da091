/** What commits and generations do to the records and keys of a session, field by field,
    and which classes are generated. */
module ContentRecords {
  import opened Wrappers
  import opened Inodes
  import opened SessionFs
  import opened ContentBytes
  import opened ContentProtocol
  import opened ContentStore
  import opened ContentInvariant
  import opened ContentSteps
  import FsTree

  /** The same namespace but for the content fields of `ino`: every other inode is as it
      was, and of its own record mode, owner, links and class. */
  ghost predicate OnlyContentOf(fs: Fs, fs': Fs, ino: Ino)
  {
    && fs'.nextInode == fs.nextInode && fs'.dirs == fs.dirs
    && ino in fs.inodes && fs'.inodes.Keys == fs.inodes.Keys
    && (forall i <- fs.inodes | i != ino :: fs'.inodes[i] == fs.inodes[i])
    && var m, m' := fs.inodes[ino], fs'.inodes[ino];
       m'.mode == m.mode && m'.uid == m.uid && m'.gid == m.gid && m'.nlink == m.nlink && m'.manifestClass == m.manifestClass
  }

  /** A version that moved, and no other. */
  ghost predicate OnlyNewer(versions: map<Ino, nat>, versions': map<Ino, nat>, ino: Ino)
  {
    Ver(versions', ino) > Ver(versions, ino) && forall i: Ino | i != ino :: Ver(versions', i) == Ver(versions, i)
  }

  /** A write of `content` was committed: new bytes, size, state and revision; the bytes are
      charged; whoever held the lease has lost it. */
  ghost predicate WriteCommitted(st: Store, st': Store, ino: Ino, content: Bytes)
  {
    && OnlyContentOf(st.fs, st'.fs, ino)
    && st'.fs.inodes[ino].contentHash == Some(Digest(content))
    && st'.fs.inodes[ino].size == |content|
    && st'.fs.inodes[ino].contentState == Some(ContentState.Written)
    && st'.fs.inodes[ino].revision == st.fs.inodes[ino].revision + 1
    && st'.blobs == st.blobs[Digest(content) := content]
    && st'.charged == st.charged + |content|
    && st'.leases == st.leases - {ino}
    && OnlyNewer(st.inodeVer, st'.inodeVer, ino) && st'.allocVer > st.allocVer
    && (if ino in st.leases then OnlyNewer(st.leaseVer, st'.leaseVer, ino) else st'.leaseVer == st.leaseVer)
  }

  /** Generated `content` was installed: bytes, size and state only; nothing is charged and
      the lease and revision stay. */
  ghost predicate GenerationInstalled(st: Store, st': Store, ino: Ino, content: Bytes)
  {
    && OnlyContentOf(st.fs, st'.fs, ino)
    && st'.fs.inodes[ino].contentHash == Some(Digest(content))
    && st'.fs.inodes[ino].size == |content|
    && st'.fs.inodes[ino].contentState == Some(ContentState.Generated)
    && st'.fs.inodes[ino].revision == st.fs.inodes[ino].revision
    && st'.blobs == st.blobs[Digest(content) := content]
    && st'.charged == st.charged && st'.leases == st.leases
    && OnlyNewer(st.inodeVer, st'.inodeVer, ino) && st'.allocVer == st.allocVer && st'.leaseVer == st.leaseVer
  }

  /** Only a lease of `ino` may have come or gone. */
  ghost predicate OnlyLeaseOf(st: Store, st': Store, ino: Ino)
  {
    && st'.fs == st.fs && st'.blobs == st.blobs && st'.charged == st.charged
    && st'.inodeVer == st.inodeVer && st'.allocVer == st.allocVer
    && (forall i: Ino | i != ino :: (i in st'.leases <==> i in st.leases) && (i in st.leases ==> st'.leases[i] == st.leases[i]))
    && (st'.leaseVer == st.leaseVer || OnlyNewer(st.leaseVer, st'.leaseVer, ino))
  }

  /** A worker takes a lease nobody holds, gives back its own, or leaves all leases alone;
      WATCH sees the first two. */
  ghost predicate LeaseCommand(st: Store, st': Store, c: CallId, ino: Ino)
  {
    && OnlyLeaseOf(st, st', ino) && (st'.leases == st.leases <==> st'.leaseVer == st.leaseVer)
    && (|| st'.leases == st.leases
        || (ino !in st.leases && st'.leases == st.leases[ino := c])
        || (ino in st.leases && st.leases[ino] == c && st'.leases == st.leases - {ino}))
  }

  lemma CommitRecord(st: Store, ino: Ino, content: Bytes)
    requires ino in st.fs.inodes
    ensures WriteCommitted(st, CommitWrite(st, ino, content), ino, content)
  {
  }

  lemma InstallRecord(st: Store, ino: Ino, content: Bytes)
    requires ino in st.fs.inodes
    ensures GenerationInstalled(st, InstallGenerated(st, ino, content), ino, content)
  {
  }

  lemma WriteStepRecord(st: Store, c: CallId, ino: Ino, m: Mutation, ph: WritePhase)
    requires WriterKnows(st, ino, m, ph)
    ensures var (st', _, events) := WriteStep(st, c, ino, m, ph);
            || (events == [] && st' == st)
            || (exists b: Bytes :: events == [Wrote(c, ino, m, b)] && WriteCommitted(st, st', ino, b))
  {
    hide Mutated, CommitWrite, WriteCommitted;
    if ph.WExec? && ph.kv == Ver(st.inodeVer, ino) && ph.av == st.allocVer {
      CommitRecord(st, ino, ph.content);
    }
  }

  lemma ResolveStepRecord(st: Store, c: CallId, ino: Ino, ph: ResolvePhase, ch: Choice)
    requires WorkerKnows(st, ino, ph)
    ensures var (st', _, events) := ResolveStep(st, c, ino, ph, ch);
            || (events == [] && LeaseCommand(st, st', c, ino))
            || (exists b: Bytes :: events == [Installed(c, ino, b)] && GenerationInstalled(st, st', ino, b))
  {
    hide Eligible, InstallGenerated, GenerationInstalled;
    if ph.RExec? && ph.kv == Ver(st.inodeVer, ino) && ph.lv == Ver(st.leaseVer, ino) {
      InstallRecord(st, ino, ph.content);
    }
  }

  /** A step of the system commits one write, installs one generation, touches one lease, or
      is a script. */
  ghost predicate StepRecord(s: Sys, a: Action, s': Sys)
  {
    match a
    case StartWrite(_, _, _) => s'.st == s.st && s'.log == s.log
    case StartRead(_, _, _) => s'.st == s.st && s'.log == s.log
    case Forget(_, _) => s'.st == s.st && s'.log == s.log
    case Script(call, versions) =>
      s'.st == s.st.(fs := FsTree.Apply(s.st.fs, call), inodeVer := versions) && s'.log == s.log
    case Expire(ino, _) => OnlyLeaseOf(s.st, s'.st, ino) && ino !in s'.st.leases && s'.log == s.log
    case Advance(c, _) =>
      c in s.procs &&
      (match s.procs[c]
       case Read(_, _, _) => s'.st == s.st && s'.log == s.log
       case Mutate(ino, m, _) =>
         || (s'.st == s.st && s'.log == s.log)
         || (exists b: Bytes :: s'.log == s.log + [Wrote(c, ino, m, b)] && WriteCommitted(s.st, s'.st, ino, b))
       case Resolve(ino, _, _) =>
         || (LeaseCommand(s.st, s'.st, c, ino) && s'.log == s.log)
         || (exists b: Bytes :: s'.log == s.log + [Installed(c, ino, b)] && GenerationInstalled(s.st, s'.st, ino, b)))
  }

  lemma AdvanceRecord(s: Sys, c: CallId, ch: Choice)
    requires Inv(s) && Enabled(s, Advance(c, ch))
    ensures StepRecord(s, Advance(c, ch), Core(s, Advance(c, ch)))
  {
    hide StoreOk, Witnessed, FuturesOk, WriterKnows, WorkerKnows, WriteStep, ResolveStep, ReadStep, WriteCommitted,
         GenerationInstalled, LeaseCommand, Settled, WritesBy;
    assert ProcKnows(s, c);
    match s.procs[c]
    case Read(_, _, _) =>
    case Mutate(ino, m, ph) =>
      WriteStepRecord(s.st, c, ino, m, ph);
      assert s.log + [] == s.log;
    case Resolve(ino, _, ph) =>
      ResolveStepRecord(s.st, c, ino, ph, ch);
      assert s.log + [] == s.log;
  }

  lemma OtherRecord(s: Sys, a: Action)
    requires Enabled(s, a) && !a.Advance?
    ensures StepRecord(s, a, Core(s, a))
  {
    hide FsTree.Apply, Touched;
  }

  lemma OneStep(run: seq<Sys>, actions: seq<Action>, t: nat) returns (s: Sys, a: Action)
    requires Run(run, actions) && 0 < t < |run|
    ensures |run| == |actions| + 1 && s == run[t - 1] && a == actions[t - 1]
    ensures Enabled(s, a) && (a.Advance? ==> a.call in s.procs) && run[t] == Observed(Core(s, a))
  {
    hide Core, Observed, Initial, Touched;
    s, a := run[t - 1], actions[t - 1];
    assert Steps(s, a, run[t]);
  }

  lemma ObservedRecord(s: Sys, a: Action, s1: Sys)
    requires StepRecord(s, a, s1)
    ensures StepRecord(s, a, Observed(s1))
  {
    hide WriteCommitted, GenerationInstalled, OnlyLeaseOf, LeaseCommand;
  }

  lemma RecordedStep(s: Sys, a: Action)
    requires Inv(s) && Enabled(s, a) && (a.Advance? ==> a.call in s.procs)
    ensures StepRecord(s, a, Observed(Core(s, a)))
  {
    hide *;
    if a.Advance? { AdvanceRecord(s, a.call, a.choice); } else { OtherRecord(s, a); }
    ObservedRecord(s, a, Core(s, a));
  }

  /** In every run each step changes the store exactly so: no commit or generation touches
      the mode, owner, links or class of any inode, or anything of another inode. */
  lemma EveryStepIsRecorded(run: seq<Sys>, actions: seq<Action>, t: nat)
    requires Run(run, actions) && 0 < t < |run|
    ensures StepRecord(run[t - 1], actions[t - 1], run[t])
  {
    hide *;
    var s, a := OneStep(run, actions, t);
    RunKeepsInv(run, actions, t - 1);
    RecordedStep(s, a);
  }

  // ---- Classes -----------------------------------------------------------------------------------

  /** A look at a live file without content ends the read with nothing exactly for the other
      classes; for these two it goes on to generate. */
  lemma LookDecides(s: Sys, ino: Ino, orch: Orchestrator, ch: Choice)
    requires ino in s.st.fs.inodes && s.st.fs.inodes[ino].mode / 0x1000 % 0x10 == 8 && s.st.fs.inodes[ino].contentHash.None?
    ensures var m := s.st.fs.inodes[ino];
            ReadStep(s, ino, orch, GMeta, ch) ==
            if m.manifestClass == Some("ai_backed") || m.manifestClass == Some("deterministic") then (GSubmit, false)
            else (GDone(Bare), false)
  {
  }

  /** So does a worker's look after its claim. */
  lemma RecheckDecides(st: Store, c: CallId, ino: Ino, ch: Choice)
    requires ino in st.fs.inodes && st.fs.inodes[ino].contentHash.None?
    ensures var m := st.fs.inodes[ino];
            ResolveStep(st, c, ino, RRecheck, ch) ==
            (st, if m.manifestClass == Some("ai_backed") || m.manifestClass == Some("deterministic") then RModel(m.revision)
                 else RRelease(Bare, false), [])
  {
  }

  // ---- The environment ------------------------------------------------------------------------------

  /** Calls start and take their next step at any moment, leases expire while they are held,
      seen or unseen by WATCH, finished futures are forgotten, and scripts run in between,
      provided every key they change gets a newer version. */
  lemma AnyInterleaving(s: Sys, c: CallId, ino: Ino, m: Mutation, orch: Orchestrator, ch: Choice, touched: bool)
    ensures c !in s.procs ==>
              && Enabled(s, StartWrite(c, ino, m)) && Core(s, StartWrite(c, ino, m)).procs == s.procs[c := Mutate(ino, m, WArgs)]
              && Enabled(s, StartRead(c, ino, orch)) && Core(s, StartRead(c, ino, orch)).procs == s.procs[c := Read(ino, orch, GMeta)]
    ensures (orch, ino) in s.futures && s.futures[(orch, ino)] == c && c in s.procs && Finished(s.procs[c]) ==>
              Enabled(s, Forget(orch, ino)) && Core(s, Forget(orch, ino)) == s.(futures := s.futures - {(orch, ino)})
    ensures c in s.procs && ch.worker !in s.procs && |ch.content| <= 1048576 ==> Enabled(s, Advance(c, ch))
    ensures ino in s.st.leases ==>
              && Enabled(s, Expire(ino, touched)) && ino !in Core(s, Expire(ino, touched)).st.leases
              && (touched ==> OnlyNewer(s.st.leaseVer, Core(s, Expire(ino, touched)).st.leaseVer, ino))
              && (!touched ==> Core(s, Expire(ino, touched)).st.leaseVer == s.st.leaseVer)
    ensures forall call: FsTree.Call, versions: map<Ino, nat> |
              IsScript(call) && Touched(s.st.fs, FsTree.Apply(s.st.fs, call), s.st.inodeVer, versions) ::
              Enabled(s, Script(call, versions))
  {
  }
}
