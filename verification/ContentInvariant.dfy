/** The invariant of the content protocol and its preservation by every step. */
module ContentInvariant {
  import opened Wrappers
  import opened Inodes
  import opened SessionFs
  import opened ContentBytes
  import opened ContentProtocol
  import opened ContentStore
  import FsTree

  // ---- What a writer knows ---------------------------------------------------------

  /** While the watched version is current, the inode is as the writer read it. */
  ghost predicate StillReads(st: Store, ino: Ino, kv: nat, prior: Bytes)
  {
    && kv <= Ver(st.inodeVer, ino)
    && (kv == Ver(st.inodeVer, ino) ==> ino in st.fs.inodes && BytesOf(st, ino) == prior)
  }

  ghost predicate WriterKnows(st: Store, ino: Ino, m: Mutation, ph: WritePhase)
  {
    && (!ph.WArgs? && !ph.WDone? ==> !m.Negative() && m.End() <= MAX_FILE_BYTES)
    && match ph
       case WArgs => true
       case WWatch(_) => true
       case WMeta(_, kv, av) => kv <= Ver(st.inodeVer, ino) && av <= st.allocVer
       case WBlob(_, kv, av, d) =>
         av <= st.allocVer && d in st.blobs && |d.preimage| <= MAX_FILE_BYTES && StillReads(st, ino, kv, d.preimage)
       case WAlloc(_, kv, av, prior) =>
         av <= st.allocVer && |prior| <= MAX_FILE_BYTES && StillReads(st, ino, kv, prior)
       case WExec(_, kv, av, prior, content) =>
         && av <= st.allocVer && |content| <= MAX_FILE_BYTES && StillReads(st, ino, kv, prior)
         && content == Mutated(m, prior)
         && (av == st.allocVer ==> st.charged + |content| <= MAX_SESSION_BLOB_BYTES)
       case WDone(r) => r != EIO
  }

  lemma WriterKeepsKnowing(st: Store, st': Store, ino: Ino, m: Mutation, ph: WritePhase)
    requires WriterKnows(st, ino, m, ph) && Grows(st, st')
    ensures WriterKnows(st', ino, m, ph)
  {
    hide Mutated;
    MetaDecides(st, st', ino);
  }

  lemma MetaDecides(st: Store, st': Store, ino: Ino)
    requires Grows(st, st')
    ensures Ver(st.inodeVer, ino) <= Ver(st'.inodeVer, ino)
    ensures Ver(st.inodeVer, ino) == Ver(st'.inodeVer, ino) ==>
              && (ino in st.fs.inodes <==> ino in st'.fs.inodes)
              && MetaOr(st.fs.inodes, ino) == MetaOr(st'.fs.inodes, ino)
              && BytesOf(st', ino) == BytesOf(st, ino)
  {
  }

  /** One command of a writer: the store stays in order, the writer's knowledge is
      right again, and the log grows by at most this one write, when it reports success. */
  lemma WriterStep(st: Store, log: seq<Event>, c: CallId, ino: Ino, m: Mutation, ph: WritePhase)
    requires StoreOk(st, log) && WriterKnows(st, ino, m, ph)
    ensures var (st', ph', events) := WriteStep(st, c, ino, m, ph);
            && StoreOk(st', log + events) && Grows(st, st') && WriterKnows(st', ino, m, ph')
            && (forall k | 0 <= k < |events| :: events[k].Wrote? && events[k].ino == ino)
            && |events| == (if ph'.WDone? && ph'.result.Written? && !ph.WDone? then 1 else 0)
            && WritesBy(log + events, c) == WritesBy(log, c) + |events|
  {
    hide Mutated, FsTree.Tree, LegalLog, Recorded, BlobsOk, Resolvable, Grows;
    var (st', ph', events) := WriteStep(st, c, ino, m, ph);
    LeaseStepGrows(st, st);
    if ph.WExec? && ph.kv == Ver(st.inodeVer, ino) && ph.av == st.allocVer {
      WriteKeepsStore(st, log, c, ino, m, ph.content);
      WriteGrows(st, ino, ph.content);
      AppendEvent(log, Wrote(c, ino, m, ph.content));
    } else {
      WriterReads(st, log, c, ino, m, ph);
      assert log + [] == log;
    }
  }

  lemma WriterReads(st: Store, log: seq<Event>, c: CallId, ino: Ino, m: Mutation, ph: WritePhase)
    requires StoreOk(st, log) && WriterKnows(st, ino, m, ph)
    requires !(ph.WExec? && ph.kv == Ver(st.inodeVer, ino) && ph.av == st.allocVer)
    ensures var (st', ph', events) := WriteStep(st, c, ino, m, ph);
            && st' == st && events == [] && WriterKnows(st, ino, m, ph')
            && (ph'.WDone? && ph'.result.Written? ==> ph.WDone?)
  {
    hide Mutated, FsTree.Tree, LegalLog, Recorded;
    if ph.WAlloc? { MutatedSize(m, ph.prior); }
  }

  // ---- What a worker knows ------------------------------------------------------------

  ghost predicate EligibleIfLive(st: Store, ino: Ino)
  {
    ino <= st.fs.nextInode && (ino in st.fs.inodes ==> Eligible(st.fs.inodes[ino]))
  }

  ghost predicate WorkerKnows(st: Store, ino: Ino, ph: ResolvePhase)
  {
    && EligibleIfLive(st, ino)
    && match ph
       case RPollBlob(d) => d in st.blobs
       case RRecheckBlob(d) => d in st.blobs
       case RStaleBlob(d) => d in st.blobs
       case RWatch(_, b) => |b| <= MAX_FILE_BYTES
       case RReadBack(_, b, kv, _) => |b| <= MAX_FILE_BYTES && kv <= Ver(st.inodeVer, ino)
       case RGetLease(_, b, kv, _, seenRev, seenHash) =>
         && |b| <= MAX_FILE_BYTES && kv <= Ver(st.inodeVer, ino)
         && (seenHash.Some? ==> seenHash.value in st.blobs)
         && (kv == Ver(st.inodeVer, ino) ==> ino in st.fs.inodes && st.fs.inodes[ino].contentHash == seenHash)
       case RExec(_, b, kv, _) =>
         && |b| <= MAX_FILE_BYTES && kv <= Ver(st.inodeVer, ino)
         && (kv == Ver(st.inodeVer, ino) ==> ino in st.fs.inodes && st.fs.inodes[ino].contentHash.None?)
       case RRelease(r, _) => r != IOError && r != Bare
       case RDone(r) => r != IOError && r != Bare
       case _ => true
  }

  lemma WorkerKeepsKnowing(st: Store, st': Store, ino: Ino, ph: ResolvePhase)
    requires WorkerKnows(st, ino, ph) && Grows(st, st')
    ensures WorkerKnows(st', ino, ph)
  {
    MetaDecides(st, st', ino);
    if ino !in st.fs.inodes { assert ino !in st'.fs.inodes; }
  }

  /** What a worker has already made up its mind to report. */
  function Reports(r: ReadResult): Option<Sight>
  {
    match r
    case Content(b) => Some(Holding(b))
    case NotFound => Some(Gone)
    case _ => None
  }

  function WorkerSight(ph: ResolvePhase): Option<Sight>
  {
    match ph
    case RPollBlob(d) => Some(Holding(d.preimage))
    case RRecheckBlob(d) => Some(Holding(d.preimage))
    case RStaleBlob(d) => Some(Holding(d.preimage))
    case RGetLease(_, _, _, _, _, Some(d)) => Some(Holding(d.preimage))
    case RRelease(r, _) => Reports(r)
    case RDone(r) => Reports(r)
    case _ => None
  }

  /** Once some worker holds bytes of an inode, a look at it never again shows it
      unwritten; once one reports it missing, it stays missing. */
  ghost predicate Settled(st: Store, ino: Ino, sight: Option<Sight>)
  {
    && ino <= st.fs.nextInode
    && (sight.Some? ==> !Look(st, ino).Unwritten?)
    && (sight == Some(Gone) ==> Look(st, ino) == Gone)
  }

  lemma StaysSettled(st: Store, st': Store, ino: Ino, sight: Option<Sight>)
    requires Settled(st, ino, sight) && Grows(st, st')
    ensures Settled(st', ino, sight)
  {
  }

  lemma WorkerStep(st: Store, log: seq<Event>, c: CallId, ino: Ino, ph: ResolvePhase, ch: Choice)
    requires StoreOk(st, log) && WorkerKnows(st, ino, ph) && Settled(st, ino, WorkerSight(ph))
    requires |ch.content| <= MAX_FILE_BYTES
    ensures var (st', ph', events) := ResolveStep(st, c, ino, ph, ch);
            && StoreOk(st', log + events) && Grows(st, st') && WorkerKnows(st', ino, ph')
            && Settled(st', ino, WorkerSight(ph'))
            && (WorkerSight(ph') == WorkerSight(ph) || WorkerSight(ph') == None || WorkerSight(ph') == Some(Look(st', ino)))
            && (forall k | 0 <= k < |events| :: events[k].Installed? && events[k].ino == ino)
            && (forall x :: WritesBy(log + events, x) == WritesBy(log, x))
  {
    hide FsTree.Tree, LegalLog, Recorded, Charged;
    var (st', ph', events) := ResolveStep(st, c, ino, ph, ch);
    if ph.RExec? && ph.kv == Ver(st.inodeVer, ino) && ph.lv == Ver(st.leaseVer, ino) {
      InstallKeepsStore(st, log, c, ino, ph.content);
      InstallGrows(st, ino, ph.content);
      AppendEvent(log, Installed(c, ino, ph.content));
    } else {
      assert events == [];
      assert log + events == log;
      assert st' == st.(leases := st'.leases, leaseVer := st'.leaseVer);
      LeaseStepGrows(st, st');
      LeaseStepKeepsStore(st, st', log);
      WorkerReads(st, log, c, ino, ph, ch);
    }
  }

  lemma LeaseStepKeepsStore(st: Store, st': Store, log: seq<Event>)
    requires StoreOk(st, log) && st' == st.(leases := st'.leases, leaseVer := st'.leaseVer)
    ensures StoreOk(st', log)
  {
    hide FsTree.Tree, LegalLog;
  }

  lemma WorkerReads(st: Store, log: seq<Event>, c: CallId, ino: Ino, ph: ResolvePhase, ch: Choice)
    requires StoreOk(st, log) && WorkerKnows(st, ino, ph) && Settled(st, ino, WorkerSight(ph))
    requires |ch.content| <= MAX_FILE_BYTES
    requires !(ph.RExec? && ph.kv == Ver(st.inodeVer, ino) && ph.lv == Ver(st.leaseVer, ino))
    ensures var (st', ph', events) := ResolveStep(st, c, ino, ph, ch);
            && WorkerKnows(st', ino, ph') && Settled(st', ino, WorkerSight(ph'))
            && (WorkerSight(ph') == WorkerSight(ph) || WorkerSight(ph') == None || WorkerSight(ph') == Some(Look(st', ino)))
  {
    hide FsTree.Tree, LegalLog, Recorded, Charged;
  }

  // ---- What a reader knows -------------------------------------------------------------

  ghost predicate ReaderKnows(st: Store, ino: Ino, ph: ReadPhase, seen: set<Sight>)
  {
    match ph
    case GMeta => true
    case GBlob(d) => d in st.blobs && Holding(d.preimage) in seen
    case GSubmit => EligibleIfLive(st, ino)
    case GWait(_) => EligibleIfLive(st, ino)
    case GDone(r) =>
      && r != IOError
      && (r == Bare ==> Unwritten(false) in seen)
      && (Reports(r).Some? ==> Reports(r).value in seen)
  }

  lemma ReaderKeepsKnowing(st: Store, st': Store, ino: Ino, ph: ReadPhase, seen: set<Sight>, seen': set<Sight>)
    requires ReaderKnows(st, ino, ph, seen) && Grows(st, st') && seen <= seen'
    ensures ReaderKnows(st', ino, ph, seen')
  {
  }

  predicate Joining(p: Proc) { p.Read? && (p.gphase.GSubmit? || p.gphase.GWait?) }

  // ---- The invariant ---------------------------------------------------------------------

  ghost predicate ProcKnows(s: Sys, c: CallId)
    requires c in s.procs
  {
    match s.procs[c]
    case Mutate(ino, m, ph) =>
      WriterKnows(s.st, ino, m, ph) &&
      WritesBy(s.log, c) == (if ph.WDone? && ph.result.Written? then 1 else 0)
    case Resolve(ino, _, ph) => WorkerKnows(s.st, ino, ph) && Settled(s.st, ino, WorkerSight(ph))
    case Read(ino, o, ph) =>
      ReaderKnows(s.st, ino, ph, SeenBy(s, c)) &&
      (ph.GWait? ==> ph.worker in s.procs && s.procs[ph.worker].Resolve? && s.procs[ph.worker].ino == ino)
  }

  /** A reader that found the inode unwritten has witnessed everything any worker on
      that inode is about to report. */
  ghost predicate Witnessed(s: Sys)
  {
    forall c, w | c in s.procs && w in s.procs && Joining(s.procs[c]) && s.procs[w].Resolve?
                  && s.procs[w].ino == s.procs[c].ino && WorkerSight(s.procs[w].rphase).Some? ::
      WorkerSight(s.procs[w].rphase).value in SeenBy(s, c)
  }

  ghost predicate FuturesOk(s: Sys)
  {
    forall key <- s.futures ::
      s.futures[key] in s.procs && s.procs[s.futures[key]].Resolve? && s.procs[s.futures[key]].ino == key.1
  }

  ghost predicate Inv(s: Sys)
  {
    && StoreOk(s.st, s.log)
    && s.seen.Keys == s.procs.Keys
    && (forall c <- s.procs :: ProcKnows(s, c))
    && (forall c | c !in s.procs :: WritesBy(s.log, c) == 0)
    && Witnessed(s)
    && FuturesOk(s)
  }

  lemma InitialInv(s: Sys)
    requires Initial(s)
    ensures Inv(s)
  {
    hide FsTree.Tree;
  }
}
