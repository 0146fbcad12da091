/** A generation is installed only by the worker whose lease it was: nobody else holds the
    lease of the inode at that moment. */
module ContentLeases {
  import opened Wrappers
  import opened Inodes
  import opened SessionFs
  import opened ContentProtocol
  import opened ContentRecords
  import opened ContentInvariant
  import opened ContentSteps
  import FsTree

  predicate NobodyElse(st: Store, ino: Ino, c: CallId)
  {
    ino in st.leases ==> st.leases[ino] == c
  }

  /** Once a worker has found the lease its own, an unmoved version says nobody else took it. */
  predicate Guards(st: Store, c: CallId, ino: Ino, ph: ResolvePhase)
  {
    match ph
    case RReadBack(_, _, _, lv) => lv <= Ver(st.leaseVer, ino)
    case RGetLease(_, _, _, lv, _, _) => lv <= Ver(st.leaseVer, ino)
    case RExec(_, _, _, lv) => lv <= Ver(st.leaseVer, ino) && (lv == Ver(st.leaseVer, ino) ==> NobodyElse(st, ino, c))
    case _ => true
  }

  predicate Guarded(s: Sys, c: CallId)
  {
    c in s.procs && s.procs[c].Resolve? ==> Guards(s.st, c, s.procs[c].ino, s.procs[c].rphase)
  }

  /** Leases of an inode change hands only with a newer version. */
  ghost predicate LeaseFrame(st: Store, st': Store, ino: Ino)
  {
    && Ver(st.leaseVer, ino) <= Ver(st'.leaseVer, ino)
    && (Ver(st.leaseVer, ino) == Ver(st'.leaseVer, ino) && ino in st'.leases ==>
          ino in st.leases && st'.leases[ino] == st.leases[ino])
  }

  lemma RecordFrames(s: Sys, a: Action, s': Sys, ino: Ino)
    requires StepRecord(s, a, s')
    ensures LeaseFrame(s.st, s'.st, ino)
  {
    hide OnlyContentOf, FsTree.Apply;
  }

  lemma FrameKeepsGuards(st: Store, st': Store, c: CallId, ino: Ino, ph: ResolvePhase)
    requires LeaseFrame(st, st', ino) && Guards(st, c, ino, ph)
    ensures Guards(st', c, ino, ph)
  {
  }

  lemma OwnStepGuards(st: Store, c: CallId, ino: Ino, ph: ResolvePhase, ch: Choice)
    requires Guards(st, c, ino, ph)
    ensures var (st', ph', _) := ResolveStep(st, c, ino, ph, ch); Guards(st', c, ino, ph')
  {
    hide Eligible, InstallGenerated;
  }

  lemma OwnGuards(s: Sys, c: CallId, ch: Choice)
    requires Enabled(s, Advance(c, ch)) && Guarded(s, c)
    ensures Guarded(Next(s, Advance(c, ch)), c)
  {
    hide ResolveStep, WriteStep, ReadStep, Guards, Look, SeenBy;
    if s.procs[c].Resolve? {
      var Resolve(ino, _, ph) := s.procs[c];
      OwnStepGuards(s.st, c, ino, ph, ch);
    }
  }

  /** A step of another call leaves the worker where it is, or has just started it. */
  lemma OtherPhase(s: Sys, a: Action, c: CallId)
    requires Enabled(s, a) && !(a.Advance? && a.call == c)
    ensures var s' := Next(s, a);
            c in s'.procs && s'.procs[c].Resolve? ==> s'.procs[c].rphase == RClaim || (c in s.procs && s'.procs[c] == s.procs[c])
  {
    hide ResolveStep, WriteStep, Look, SeenBy, Touched;
  }

  lemma {:induction false} RunIsGuarded(run: seq<Sys>, actions: seq<Action>, t: nat, c: CallId)
    requires Run(run, actions) && t < |run|
    ensures Guarded(run[t], c)
    decreases t
  {
    hide Next, Enabled, Guards, StepRecord, LeaseFrame;
    if t > 0 {
      RunIsGuarded(run, actions, t - 1, c);
      var s, a := OneStep(run, actions, t);
      assert run[t] == Next(s, a) by { assert Steps(s, a, run[t]); }
      if a.Advance? && a.call == c {
        OwnGuards(s, c, a.choice);
      } else {
        OtherPhase(s, a, c);
        if c in run[t].procs && run[t].procs[c].Resolve? {
          var ino, ph := run[t].procs[c].ino, run[t].procs[c].rphase;
          ClaimIsGuarded(run[t].st, c, ino);
          EveryStepIsRecorded(run, actions, t);
          RecordFrames(s, a, run[t], ino);
          if ph != RClaim { FrameKeepsGuards(s.st, run[t].st, c, ino, ph); }
        }
      }
    }
  }

  lemma ClaimIsGuarded(st: Store, c: CallId, ino: Ino)
    ensures Guards(st, c, ino, RClaim)
  {
  }

  /** In every run, a step that installs a generation is a step of its worker, at a moment
      when nobody else holds the inode's lease. */
  lemma InstallsUnderLease(run: seq<Sys>, actions: seq<Action>, t: nat, c: CallId, ino: Ino, content: Bytes)
    requires Run(run, actions) && 0 < t < |run| && run[t].log == run[t - 1].log + [Installed(c, ino, content)]
    ensures actions[t - 1].Advance? && actions[t - 1].call == c
    ensures ino in run[t - 1].st.leases ==> run[t - 1].st.leases[ino] == c
  {
    var s, a := OneStep(run, actions, t);
    RunIsGuarded(run, actions, t - 1, c);
    InstallStep(s, a, c, ino, content);
  }

  lemma InstallStep(s: Sys, a: Action, c: CallId, ino: Ino, content: Bytes)
    requires Enabled(s, a) && (a.Advance? ==> a.call in s.procs) && Core(s, a).log == s.log + [Installed(c, ino, content)]
    requires Guarded(s, c)
    ensures a.Advance? && a.call == c && NobodyElse(s.st, ino, c)
  {
    hide Eligible, CommitWrite, InstallGenerated, ReadStep, Touched, FsTree.Apply;
    var before := s.log;
    assert |Core(s, a).log| == |before| + 1 && Core(s, a).log[|before|] == Installed(c, ino, content);
  }

  // ---- What a worker that is left alone does ---------------------------------------------------

  /** The check before the install: the lease is still the worker's, and what it read back has
      the revision it started from and no content. */
  lemma CommitChecks(st: Store, c: CallId, ino: Ino, rev: nat, content: Bytes, kv: nat, lv: nat,
                     seenRev: nat, seenHash: Option<Digest>, ch: Choice)
    ensures ResolveStep(st, c, ino, RGetLease(rev, content, kv, lv, seenRev, seenHash), ch) ==
            (st,
             if ino in st.leases && st.leases[ino] == c && seenRev == rev && seenHash.None? then RExec(rev, content, kv, lv)
             else if seenHash.Some? then RStaleBlob(seenHash.value)
             else RRelease(Nothing, true),
             [])
  {
  }

  /** The worker's next steps in a store nobody else touches. */
  function Alone(st: Store, c: CallId, ino: Ino, ph: ResolvePhase, ch: Choice, n: nat): (Store, ResolvePhase)
    decreases n
  {
    if n == 0 then (st, ph)
    else
      var (st', ph', _) := ResolveStep(st, c, ino, ph, ch);
      Alone(st', c, ino, ph', ch, n - 1)
  }

  lemma OneMore(st: Store, c: CallId, ino: Ino, ph: ResolvePhase, ch: Choice, n: nat, st': Store, ph': ResolvePhase)
    requires n > 0 && ResolveStep(st, c, ino, ph, ch).0 == st' && ResolveStep(st, c, ino, ph, ch).1 == ph'
    ensures Alone(st, c, ino, ph, ch, n) == Alone(st', c, ino, ph', ch, n - 1)
  {
    hide ResolveStep;
  }

  /** With its lease, the worker reads, generates, checks and installs. */
  lemma HeldInstalls(held: Store, c: CallId, ino: Ino, ch: Choice)
    requires ino in held.fs.inodes && held.fs.inodes[ino].contentHash.None? && ino in held.leases && held.leases[ino] == c
    requires held.fs.inodes[ino].manifestClass == Some("ai_backed") || held.fs.inodes[ino].manifestClass == Some("deterministic")
    ensures Alone(held, c, ino, RRecheck, ch, 7) ==
            Alone(InstallGenerated(held, ino, ch.content), c, ino, RRelease(Content(ch.content), true), ch, 1)
  {
    hide Alone, InstallGenerated;
    var rev, kv, lv := held.fs.inodes[ino].revision, Ver(held.inodeVer, ino), Ver(held.leaseVer, ino);
    var b := ch.content;
    RecheckDecides(held, c, ino, ch);
    CommitChecks(held, c, ino, rev, b, kv, lv, rev, None, ch);
    OneMore(held, c, ino, RRecheck, ch, 7, held, RModel(rev));
    OneMore(held, c, ino, RModel(rev), ch, 6, held, RWatch(rev, b));
    OneMore(held, c, ino, RWatch(rev, b), ch, 5, held, RReadBack(rev, b, kv, lv));
    OneMore(held, c, ino, RReadBack(rev, b, kv, lv), ch, 4, held, RGetLease(rev, b, kv, lv, rev, None));
    OneMore(held, c, ino, RGetLease(rev, b, kv, lv, rev, None), ch, 3, held, RExec(rev, b, kv, lv));
    OneMore(held, c, ino, RExec(rev, b, kv, lv), ch, 2, InstallGenerated(held, ino, b), RRelease(Content(b), true));
  }

  lemma ReleaseEnds(made: Store, c: CallId, ino: Ino, result: ReadResult, ch: Choice)
    requires ino in made.leases && made.leases[ino] == c
    ensures Alone(made, c, ino, RRelease(result, true), ch, 1) ==
            (made.(leases := made.leases - {ino}, leaseVer := Bump(made.leaseVer, ino)), RDone(result))
  {
  }

  /** A worker that claims a free lease of a file waiting for generated content, and is left
      alone, installs what was generated, returns it and gives the lease back. */
  lemma LeftAloneInstalls(st: Store, c: CallId, ino: Ino, ch: Choice)
    requires ino in st.fs.inodes && st.fs.inodes[ino].contentHash.None? && ino !in st.leases
    requires st.fs.inodes[ino].manifestClass == Some("ai_backed") || st.fs.inodes[ino].manifestClass == Some("deterministic")
    ensures var (st', ph') := Alone(st, c, ino, RClaim, ch, 8);
            && ph' == RDone(Content(ch.content))
            && OnlyContentOf(st.fs, st'.fs, ino) && st'.fs.inodes[ino].contentHash == Some(Digest(ch.content))
            && Digest(ch.content) in st'.blobs && st'.blobs[Digest(ch.content)] == ch.content
            && st'.leases == st.leases
  {
    hide Alone, InstallGenerated, OnlyContentOf;
    var held := st.(leases := st.leases[ino := c], leaseVer := Bump(st.leaseVer, ino));
    var made := InstallGenerated(held, ino, ch.content);
    OneMore(st, c, ino, RClaim, ch, 8, held, RRecheck);
    HeldInstalls(held, c, ino, ch);
    InstallRecord(held, ino, ch.content);
    ReleaseEnds(made, c, ino, Content(ch.content), ch);
    assert made.leases - {ino} == st.leases;
    ContentKept(st.fs, made.fs, ino, held.fs);
  }

  lemma ContentKept(fs: Fs, fs': Fs, ino: Ino, same: Fs)
    requires same == fs && OnlyContentOf(same, fs', ino)
    ensures OnlyContentOf(fs, fs', ino) && ino in fs'.inodes
  {
  }
}
