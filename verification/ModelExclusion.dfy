/** As long as no lease expires, at most one worker of an inode is in its model phase. */
module ModelExclusion {
  import opened Inodes
  import opened ContentBytes
  import opened ContentProtocol
  import opened ContentStore
  import opened ContentInvariant
  import opened ContentSteps

  /** Between the re-check after claiming the lease, if it went on to generate, and the
      release of the lease. */
  predicate InModelPhase(p: Proc): (r: bool)
    ensures r ==> p.Resolve?
  {
    p.Resolve? &&
    match p.rphase
    case RModel(_) => true
    case RWatch(_, _) => true
    case RReadBack(_, _, _, _) => true
    case RGetLease(_, _, _, _, _, _) => true
    case RStaleBlob(_) => true
    case RExec(_, _, _, _) => true
    case RRelease(_, modelled) => modelled
    case _ => false
  }

  predicate Claimed(p: Proc) { InModelPhase(p) || (p.Resolve? && p.rphase.RRecheck?) }

  /** Worker `w` still has the lease, or the inode is no longer waiting for content. */
  ghost predicate Guarded(st: Store, w: CallId, ino: Ino)
  {
    (ino in st.leases && st.leases[ino] == w) || !Look(st, ino).Unwritten?
  }

  ghost predicate Exclusive(s: Sys)
  {
    && (forall w <- s.procs | Claimed(s.procs[w]) :: Guarded(s.st, w, s.procs[w].ino))
    && (forall v, w | v in s.procs && w in s.procs && v != w && InModelPhase(s.procs[v]) && InModelPhase(s.procs[w]) ::
          s.procs[v].ino != s.procs[w].ino)
  }

  /** A lease goes only to its holder's release, or to a write that brings content. */
  ghost predicate LeasesMove(st: Store, st': Store, c: CallId)
  {
    forall i: Ino | i in st.leases ::
      || (i in st'.leases && st'.leases[i] == st.leases[i])
      || st.leases[i] == c
      || !Look(st', i).Unwritten?
  }

  lemma WriteLeases(st: Store, c: CallId, ino: Ino, m: Mutation, ph: WritePhase)
    ensures LeasesMove(st, WriteStep(st, c, ino, m, ph).0, c)
  {
    hide Mutated;
  }

  lemma ResolveLeases(st: Store, c: CallId, ino: Ino, ph: ResolvePhase, ch: Choice)
    ensures LeasesMove(st, ResolveStep(st, c, ino, ph, ch).0, c)
  {
    hide Eligible;
  }

  /** A guard outlives every step but an expiry and the holder's own release. */
  lemma StaysGuarded(st: Store, st': Store, c: CallId, w: CallId, ino: Ino)
    requires Guarded(st, w, ino) && w != c && LeasesMove(st, st', c) && Grows(st, st') && ino <= st.fs.nextInode
    ensures Guarded(st', w, ino)
  {
  }

  /** The worker that moves: claiming gives it the guard, and its phase stays guarded
      until it releases. Entering the model phase needs an unwritten inode. */
  lemma OwnGuard(st: Store, c: CallId, ino: Ino, o: Orchestrator, ph: ResolvePhase, ch: Choice)
    requires Claimed(Resolve(ino, o, ph)) ==> Guarded(st, c, ino)
    requires Grows(st, ResolveStep(st, c, ino, ph, ch).0) && ino <= st.fs.nextInode
    ensures var (st', ph', _) := ResolveStep(st, c, ino, ph, ch);
            && (Claimed(Resolve(ino, o, ph')) ==> Guarded(st', c, ino))
            && (InModelPhase(Resolve(ino, o, ph')) && !InModelPhase(Resolve(ino, o, ph)) ==>
                  ph.RRecheck? && Look(st, ino).Unwritten?)
  {
    hide Eligible, Grows;
    if ph.RExec? { InstallShows(st, ino, ph.content); }
  }

  lemma InstallShows(st: Store, ino: Ino, content: Bytes)
    ensures Look(InstallGenerated(st, ino, content), ino) == Holding(content)
  {
  }

  lemma WorkerKeepsExclusive(s: Sys, c: CallId, ch: Choice)
    requires Inv(s) && Exclusive(s) && Enabled(s, Advance(c, ch)) && s.procs[c].Resolve?
    ensures Exclusive(Next(s, Advance(c, ch)))
  {
    hide StoreOk, Grows, Look, Settled, WorkerKnows, Guarded, LeasesMove, ResolveStep, Witnessed, FuturesOk, InModelPhase;
    var s' := Next(s, Advance(c, ch));
    var Resolve(ino, o, ph) := s.procs[c];
    StepGrows(s, Advance(c, ch));
    WorkerInRange(s, c);
    ResolveLeases(s.st, c, ino, ph, ch);
    OwnGuard(s.st, c, ino, o, ph, ch);
    forall w <- s'.procs | Claimed(s'.procs[w]) ensures Guarded(s'.st, w, s'.procs[w].ino) {
      if w != c {
        WorkerInRange(s, w);
        StaysGuarded(s.st, s'.st, c, w, s.procs[w].ino);
      }
    }
    if InModelPhase(s'.procs[c]) && !InModelPhase(s.procs[c]) {
      forall w <- s'.procs | w != c && InModelPhase(s'.procs[w]) ensures s'.procs[w].ino != ino {
        OneHolder(s.st, c, w, ino, s.procs[c], s.procs[w]);
      }
    }
  }

  /** Two guards of an unwritten inode are the same worker's. */
  lemma OneHolder(st: Store, v: CallId, w: CallId, ino: Ino, p: Proc, q: Proc)
    requires v != w && Look(st, ino).Unwritten? && p.ino == ino
    requires p.Resolve? && p.rphase.RRecheck? && Guarded(st, v, p.ino)
    requires InModelPhase(q) && Guarded(st, w, q.ino)
    ensures q.ino != ino
  {
    hide Look;
  }

  lemma WorkerInRange(s: Sys, w: CallId)
    requires Inv(s) && w in s.procs && s.procs[w].Resolve?
    ensures s.procs[w].ino <= s.st.fs.nextInode
  {
    hide StoreOk, Witnessed, FuturesOk, WorkerSight;
    assert ProcKnows(s, w);
  }

  /** Steps that do not move a worker that has claimed. */
  lemma OthersKeepExclusive(s: Sys, s': Sys, c: CallId)
    requires Inv(s) && Exclusive(s) && Grows(s.st, s'.st) && LeasesMove(s.st, s'.st, c)
    requires c in s.procs ==> !Claimed(s.procs[c])
    requires forall w <- s'.procs | Claimed(s'.procs[w]) :: w != c && w in s.procs && s.procs[w] == s'.procs[w]
    ensures Exclusive(s')
  {
    hide StoreOk, Grows, Look, Guarded, LeasesMove, Witnessed, FuturesOk, ProcKnows;
    forall w <- s'.procs | Claimed(s'.procs[w]) ensures Guarded(s'.st, w, s'.procs[w].ino) {
      WorkerInRange(s, w);
      StaysGuarded(s.st, s'.st, c, w, s.procs[w].ino);
    }
  }

  lemma SameLeases(st: Store, st': Store, c: CallId)
    requires st'.leases == st.leases
    ensures LeasesMove(st, st', c)
  {
    hide Look;
  }

  lemma StepKeepsExclusive(s: Sys, a: Action)
    requires Inv(s) && Exclusive(s) && Enabled(s, a) && !a.Expire?
    ensures Exclusive(Next(s, a))
  {
    hide Inv, Exclusive, Grows, LeasesMove, WriteStep, ResolveStep, ReadStep, FsTree.Apply, Touched, Look;
    StepGrows(s, a);
    var s' := Next(s, a);
    match a
    case Advance(c, ch) =>
      if s.procs[c].Resolve? {
        WorkerKeepsExclusive(s, c, ch);
      } else {
        if s.procs[c].Mutate? {
          WriteLeases(s.st, c, s.procs[c].ino, s.procs[c].mutation, s.procs[c].wphase);
        } else {
          SameLeases(s.st, s'.st, c);
        }
        OthersKeepExclusive(s, s', c);
      }
    case StartWrite(c, _, _) => SameLeases(s.st, s'.st, c); OthersKeepExclusive(s, s', c);
    case StartRead(c, _, _) => SameLeases(s.st, s'.st, c); OthersKeepExclusive(s, s', c);
    case Script(_, _) => var c := Unused(s); SameLeases(s.st, s'.st, c); OthersKeepExclusive(s, s', c);
    case Forget(_, _) => var c := Unused(s); SameLeases(s.st, s'.st, c); OthersKeepExclusive(s, s', c);
  }

  /** Some call identifier is not in use. */
  lemma Unused(s: Sys) returns (c: CallId)
    ensures c !in s.procs
  {
    c := FreshBeyond(s.procs.Keys);
    assert c !in s.procs.Keys;
  }

  lemma {:induction false} FreshBeyond(ids: set<CallId>) returns (c: CallId)
    ensures forall x <- ids :: x < c
    decreases |ids|
  {
    if ids == {} { return 0; }
    var x :| x in ids;
    var rest := FreshBeyond(ids - {x});
    assert forall y <- ids :: y == x || y in ids - {x};
    c := if x < rest then rest else x + 1;
  }

  lemma InitialExclusive(s: Sys)
    requires Initial(s)
    ensures Exclusive(s)
  {
    hide FsTree.Tree;
  }

  lemma {:induction false} RunKeepsExclusive(run: seq<Sys>, actions: seq<Action>, t: nat)
    requires Run(run, actions) && t < |run| && forall a <- actions :: !a.Expire?
    ensures Exclusive(run[t])
    decreases t
  {
    hide Inv, Enabled, Next, Exclusive, Initial;
    if t == 0 {
      InitialExclusive(run[0]);
    } else {
      RunKeepsExclusive(run, actions, t - 1);
      RunKeepsInv(run, actions, t - 1);
      assert Steps(run[t - 1], actions[t - 1], run[t]);
      StepKeepsExclusive(run[t - 1], actions[t - 1]);
    }
  }

  /** In a run without lease expiry no two workers generate for one inode at a time, even
      though a committed write deletes the lease under its holder. */
  lemma OneGeneratorPerInode(run: seq<Sys>, actions: seq<Action>, t: nat, v: CallId, w: CallId)
    requires Run(run, actions) && t < |run| && forall a <- actions :: !a.Expire?
    requires v in run[t].procs && w in run[t].procs && v != w
    requires InModelPhase(run[t].procs[v]) && InModelPhase(run[t].procs[w])
    ensures run[t].procs[v].ino != run[t].procs[w].ino
  {
    hide Run, InModelPhase, Guarded;
    RunKeepsExclusive(run, actions, t);
  }
}
