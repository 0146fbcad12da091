/** Writers, readers and generators of one session over the shared store. Every Redis
    command is one step, and steps of different calls interleave freely; leases may
    expire at any moment, and namespace scripts run in between.

    WATCH is modelled by a version for each watched key: EXEC goes through exactly when
    the versions noted at WATCH are still current. */
module ContentProtocol {
  import opened Wrappers
  import opened Inodes
  import opened SessionFs
  import opened ContentBytes
  import FsTree

  const MAX_SESSION_BLOB_BYTES := 16 * 1024 * 1024
  const WRITE_TRIES: nat := 32

  /** One call of mutate_content, get_or_generate or _resolve; never reused. A worker's
      identifier doubles as its lease token (uuid4). */
  type CallId = nat

  type Orchestrator = nat

  datatype Store = Store(
    fs: Fs,
    blobs: map<Digest, Bytes>,
    charged: nat,
    leases: map<Ino, CallId>,
    inodeVer: map<Ino, nat>,
    leaseVer: map<Ino, nat>,
    allocVer: nat)

  function Ver(versions: map<Ino, nat>, i: Ino): nat
  {
    if i in versions then versions[i] else 0
  }

  function Bump(versions: map<Ino, nat>, i: Ino): map<Ino, nat>
  {
    versions[i := Ver(versions, i) + 1]
  }

  /** Committed content changes, oldest first (a history variable). */
  datatype Event =
    | Wrote(call: CallId, ino: Ino, mutation: Mutation, content: Bytes)
    | Installed(call: CallId, ino: Ino, content: Bytes)

  predicate Eligible(m: Meta)
  {
    m.manifestClass == Some("ai_backed") || m.manifestClass == Some("deterministic")
  }

  // ---- mutate_content ------------------------------------------------------------

  datatype WriteResult = Written | EINVAL | EFBIG | ENOENT | EISDIR | ENOSPC | EAGAIN | EIO

  /** Where a write stands; `kv` and `av` are the watched versions of the inode and of
      the allocation counter. */
  datatype WritePhase =
    | WArgs
    | WWatch(tries: nat)
    | WMeta(tries: nat, kv: nat, av: nat)
    | WBlob(tries: nat, kv: nat, av: nat, digest: Digest)
    | WAlloc(tries: nat, kv: nat, av: nat, prior: Bytes)
    | WExec(tries: nat, kv: nat, av: nat, prior: Bytes, content: Bytes)
    | WDone(result: WriteResult)

  function CommitWrite(st: Store, ino: Ino, content: Bytes): Store
  {
    var m := MetaOr(st.fs.inodes, ino);
    st.(fs := st.fs.(inodes := st.fs.inodes[ino := m.(
                contentHash := Some(Digest(content)), size := |content|,
                contentState := Some(ContentState.Written), revision := m.revision + 1)]),
        blobs := st.blobs[Digest(content) := content],
        charged := st.charged + |content|,
        allocVer := st.allocVer + 1,
        inodeVer := Bump(st.inodeVer, ino),
        leases := st.leases - {ino},
        leaseVer := if ino in st.leases then Bump(st.leaseVer, ino) else st.leaseVer)
  }

  function WriteStep(st: Store, c: CallId, ino: Ino, m: Mutation, ph: WritePhase): (Store, WritePhase, seq<Event>)
  {
    match ph
    case WArgs =>
      (st, if m.Negative() then WDone(EINVAL)
           else if m.End() > MAX_FILE_BYTES then WDone(EFBIG)
           else WWatch(WRITE_TRIES), [])
    case WWatch(tries) =>
      (st, if tries == 0 then WDone(EAGAIN) else WMeta(tries, Ver(st.inodeVer, ino), st.allocVer), [])
    case WMeta(tries, kv, av) =>
      (st, if ino !in st.fs.inodes then WDone(ENOENT)
           else if !IsReg(st.fs.inodes[ino].mode) then WDone(EISDIR)
           else match st.fs.inodes[ino].contentHash
                case Some(d) => WBlob(tries, kv, av, d)
                case None => WAlloc(tries, kv, av, []), [])
    case WBlob(tries, kv, av, d) =>
      (st, if d in st.blobs then WAlloc(tries, kv, av, st.blobs[d]) else WDone(EIO), [])
    case WAlloc(tries, kv, av, prior) =>
      if m.Negative() then (st, WDone(EINVAL), [])
      else
        var content := Mutated(m, prior);
        (st, if st.charged + |content| > MAX_SESSION_BLOB_BYTES then WDone(ENOSPC)
             else WExec(tries, kv, av, prior, content), [])
    case WExec(tries, kv, av, prior, content) =>
      if kv == Ver(st.inodeVer, ino) && av == st.allocVer then
        (CommitWrite(st, ino, content), WDone(WriteResult.Written), [Wrote(c, ino, m, content)])
      else
        (st, if tries <= 1 then WDone(EAGAIN) else WWatch(tries - 1), [])
    case WDone(_) => (st, ph, [])
  }

  // ---- _resolve and _commit --------------------------------------------------------

  datatype ReadResult =
    | Content(bytes: Bytes)
    | Bare                 // b"" for an inode whose class is never generated
    | Nothing              // None: timeout, refusal or a superseded generation
    | NotFound
    | NotRegular
    | IOError

  datatype ResolvePhase =
    | RClaim
    | RPoll
    | RPollBlob(digest: Digest)
    | RRecheck
    | RRecheckBlob(digest: Digest)
    | RModel(rev: nat)
    | RWatch(rev: nat, content: Bytes)
    | RReadBack(rev: nat, content: Bytes, kv: nat, lv: nat)
    | RGetLease(rev: nat, content: Bytes, kv: nat, lv: nat, seenRev: nat, seenHash: Option<Digest>)
    | RStaleBlob(digest: Digest)
    | RExec(rev: nat, content: Bytes, kv: nat, lv: nat)
    | RRelease(result: ReadResult, modelled: bool)
    | RDone(result: ReadResult)

  /** What the environment decides in a step: a deadline passing, the bytes a renderer,
      fallback or model produced, the identifier a new worker gets, a full pool. */
  datatype Choice = Choice(timeout: bool, content: Bytes, worker: CallId, refused: bool)

  function InstallGenerated(st: Store, ino: Ino, content: Bytes): Store
  {
    var m := MetaOr(st.fs.inodes, ino);
    st.(fs := st.fs.(inodes := st.fs.inodes[ino := m.(
                contentHash := Some(Digest(content)), size := |content|,
                contentState := Some(ContentState.Generated))]),
        blobs := st.blobs[Digest(content) := content],
        inodeVer := Bump(st.inodeVer, ino))
  }

  function BlobResult(st: Store, d: Digest): ReadResult
  {
    if d in st.blobs then Content(st.blobs[d]) else IOError
  }

  function ResolveStep(st: Store, c: CallId, ino: Ino, ph: ResolvePhase, ch: Choice): (Store, ResolvePhase, seq<Event>)
  {
    match ph
    case RClaim =>                                            // SET lease token NX EX
      if ino in st.leases then (st, RPoll, [])
      else (st.(leases := st.leases[ino := c], leaseVer := Bump(st.leaseVer, ino)), RRecheck, [])
    case RPoll =>
      (st, if ino !in st.fs.inodes then RDone(NotFound)
           else match st.fs.inodes[ino].contentHash
                case Some(d) => RPollBlob(d)
                case None => if ch.timeout then RDone(Nothing) else RClaim, [])
    case RPollBlob(d) => (st, RDone(BlobResult(st, d)), [])
    case RRecheck =>
      (st, if ino !in st.fs.inodes then RRelease(NotFound, false)
           else match st.fs.inodes[ino].contentHash
                case Some(d) => RRecheckBlob(d)
                case None =>
                  if Eligible(st.fs.inodes[ino]) then RModel(st.fs.inodes[ino].revision) else RRelease(Bare, false), [])
    case RRecheckBlob(d) => (st, RRelease(BlobResult(st, d), false), [])
    case RModel(rev) => (st, RWatch(rev, ch.content), [])
    case RWatch(rev, content) =>
      (st, RReadBack(rev, content, Ver(st.inodeVer, ino), Ver(st.leaseVer, ino)), [])
    case RReadBack(rev, content, kv, lv) =>
      (st, if ino !in st.fs.inodes then RRelease(NotFound, true)
           else RGetLease(rev, content, kv, lv, st.fs.inodes[ino].revision, st.fs.inodes[ino].contentHash), [])
    case RGetLease(rev, content, kv, lv, seenRev, seenHash) =>
      (st, if ino !in st.leases || st.leases[ino] != c || seenRev != rev || seenHash.Some? then
             (match seenHash case Some(d) => RStaleBlob(d) case None => RRelease(Nothing, true))
           else RExec(rev, content, kv, lv), [])
    case RStaleBlob(d) => (st, RRelease(BlobResult(st, d), true), [])
    case RExec(rev, content, kv, lv) =>
      if kv == Ver(st.inodeVer, ino) && lv == Ver(st.leaseVer, ino) then
        (InstallGenerated(st, ino, content), RRelease(Content(content), true), [Installed(c, ino, content)])
      else (st, RRelease(Nothing, true), [])
    case RRelease(result, _) =>                               // delete the lease if it is still ours
      (if ino in st.leases && st.leases[ino] == c then
         st.(leases := st.leases - {ino}, leaseVer := Bump(st.leaseVer, ino))
       else st,
       RDone(result), [])
    case RDone(_) => (st, ph, [])
  }

  // ---- get_or_generate and the whole system ------------------------------------------

  datatype ReadPhase =
    | GMeta
    | GBlob(digest: Digest)
    | GSubmit
    | GWait(worker: CallId)
    | GDone(result: ReadResult)

  datatype Proc =
    | Mutate(ino: Ino, mutation: Mutation, wphase: WritePhase)
    | Resolve(ino: Ino, orch: Orchestrator, rphase: ResolvePhase)
    | Read(ino: Ino, orch: Orchestrator, gphase: ReadPhase)

  /** What a look at an inode shows at one moment. */
  datatype Sight = Holding(bytes: Bytes) | Unwritten(eligible: bool) | Gone

  function Look(st: Store, ino: Ino): Sight
  {
    if ino !in st.fs.inodes then Gone
    else match st.fs.inodes[ino].contentHash
         case Some(d) => Holding(d.preimage)
         case None => Unwritten(Eligible(st.fs.inodes[ino]))
  }

  /** `seen[c]` collects what a look at the inode of call c would have shown at each
      moment since the call began (a history variable). */
  datatype Sys = Sys(
    st: Store,
    procs: map<CallId, Proc>,
    futures: map<(Orchestrator, Ino), CallId>,
    log: seq<Event>,
    seen: map<CallId, set<Sight>>)

  datatype Action =
    | StartWrite(call: CallId, ino: Ino, mutation: Mutation)
    | StartRead(call: CallId, ino: Ino, orch: Orchestrator)
    | Advance(call: CallId, choice: Choice)
    | Script(script: FsTree.Call, versions: map<Ino, nat>)
    | Expire(ino: Ino, touched: bool)
    | Forget(orch: Orchestrator, ino: Ino)

  /** The four scripts; chmod and the other plain HSETs are not atomic with their
      existence check and are not steps of this system. */
  predicate IsScript(call: FsTree.Call)
  {
    !call.Chmod? && call.Typed()
  }

  /** Versions after a script: every changed, created or removed inode key is newer; the
      script may touch others too (a parent's times). */
  ghost predicate Touched(fs: Fs, fs': Fs, versions: map<Ino, nat>, versions': map<Ino, nat>)
  {
    forall i: Ino ::
      && Ver(versions, i) <= Ver(versions', i)
      && ((i in fs.inodes) != (i in fs'.inodes) || MetaOr(fs.inodes, i) != MetaOr(fs'.inodes, i) ==>
            Ver(versions, i) < Ver(versions', i))
  }

  ghost predicate Enabled(s: Sys, a: Action)
  {
    match a
    case StartWrite(c, _, _) => c !in s.procs
    case StartRead(c, _, _) => c !in s.procs
    case Advance(c, ch) => c in s.procs && ch.worker !in s.procs && |ch.content| <= MAX_FILE_BYTES
    case Script(call, versions) =>
      IsScript(call) && Touched(s.st.fs, FsTree.Apply(s.st.fs, call), s.st.inodeVer, versions)
    case Expire(ino, _) => ino in s.st.leases
    case Forget(o, i) =>
      (o, i) in s.futures && s.futures[(o, i)] in s.procs && Finished(s.procs[s.futures[(o, i)]])
  }

  predicate Finished(p: Proc) { p.Resolve? && p.rphase.RDone? }

  /** One step of a get_or_generate call: its new phase, and the worker it starts. */
  function ReadStep(s: Sys, ino: Ino, orch: Orchestrator, ph: ReadPhase, ch: Choice): (ReadPhase, bool)
  {
    match ph
    case GMeta =>
      if ino !in s.st.fs.inodes then (GDone(NotFound), false)
      else
        var m := s.st.fs.inodes[ino];
        if !IsReg(m.mode) then (GDone(NotRegular), false)
        else (match m.contentHash
              case Some(d) => (GBlob(d), false)
              case None => (if Eligible(m) then GSubmit else GDone(Bare), false))
    case GBlob(d) => (GDone(BlobResult(s.st, d)), false)
    case GSubmit =>
      if (orch, ino) in s.futures then (GWait(s.futures[(orch, ino)]), false)
      else if ch.refused then (GDone(Nothing), false)
      else (GWait(ch.worker), true)
    case GWait(w) =>
      if ch.timeout then (GDone(Nothing), false)
      else if w in s.procs && Finished(s.procs[w]) then (GDone(s.procs[w].rphase.result), false)
      else (ph, false)
    case GDone(_) => (ph, false)
  }

  function AdvanceCall(s: Sys, c: CallId, ch: Choice): Sys
    requires c in s.procs
  {
    match s.procs[c]
    case Mutate(ino, m, ph) =>
      var (st', ph', events) := WriteStep(s.st, c, ino, m, ph);
      s.(st := st', procs := s.procs[c := Mutate(ino, m, ph')], log := s.log + events)
    case Resolve(ino, o, ph) =>
      var (st', ph', events) := ResolveStep(s.st, c, ino, ph, ch);
      s.(st := st', procs := s.procs[c := Resolve(ino, o, ph')], log := s.log + events)
    case Read(ino, o, ph) =>
      var (ph', starts) := ReadStep(s, ino, o, ph, ch);
      if starts then
        s.(procs := s.procs[c := Read(ino, o, ph')][ch.worker := Resolve(ino, o, RClaim)],
           futures := s.futures[(o, ino) := ch.worker])
      else
        s.(procs := s.procs[c := Read(ino, o, ph')])
  }

  function Core(s: Sys, a: Action): Sys
    requires a.Advance? ==> a.call in s.procs
  {
    match a
    case StartWrite(c, ino, m) => s.(procs := s.procs[c := Mutate(ino, m, WArgs)])
    case StartRead(c, ino, o) => s.(procs := s.procs[c := Read(ino, o, GMeta)])
    case Advance(c, ch) => AdvanceCall(s, c, ch)
    case Script(call, versions) => s.(st := s.st.(fs := FsTree.Apply(s.st.fs, call), inodeVer := versions))
    case Expire(ino, touched) =>
      s.(st := s.st.(leases := s.st.leases - {ino},
                     leaseVer := if touched then Bump(s.st.leaseVer, ino) else s.st.leaseVer))
    case Forget(o, i) => s.(futures := s.futures - {(o, i)})
  }

  function SeenBy(s: Sys, c: CallId): set<Sight>
  {
    if c in s.seen then s.seen[c] else {}
  }

  function Observed(s: Sys): Sys
  {
    s.(seen := map c | c in s.procs :: SeenBy(s, c) + {Look(s.st, s.procs[c].ino)})
  }

  function Next(s: Sys, a: Action): Sys
    requires a.Advance? ==> a.call in s.procs
  {
    Observed(Core(s, a))
  }

  /** A freshly initialised session: a tree, nothing written, nothing running. */
  ghost predicate Initial(s: Sys)
  {
    && FsTree.Tree(s.st.fs)
    && (forall i <- s.st.fs.inodes :: s.st.fs.inodes[i].contentHash.None? && s.st.fs.inodes[i].revision == 0)
    && s.st.blobs == map[] && s.st.charged == 0 && s.st.leases == map[]
    && s.procs == map[] && s.futures == map[] && s.log == [] && s.seen == map[]
  }

  ghost predicate Steps(s: Sys, a: Action, s': Sys)
  {
    Enabled(s, a) && s' == Next(s, a)
  }

  ghost predicate Run(run: seq<Sys>, actions: seq<Action>)
  {
    && |run| == |actions| + 1 && Initial(run[0])
    && forall t | 0 < t < |run| :: Steps(run[t - 1], actions[t - 1], run[t])
  }
}
