/** What the errors of a write say of the store, over whole runs of the content protocol,
    and exactly when its ENOSPC is wrong. */
module ContentErrors {
  import opened Wrappers
  import opened Inodes
  import opened SessionFs
  import opened ContentBytes
  import opened ContentProtocol
  import opened ContentStore
  import opened ContentInvariant
  import opened ContentSteps
  import FsTree

  // ---- When "no space" is right -------------------------------------------------------------

  function Room(st: Store): int { 16777216 - st.charged }

  /** Done at once in this store, the write would be refused for space. */
  ghost predicate Refuses(st: Store, ino: Ino, m: Mutation)
    requires !m.Negative()
  {
    IsFile(st, ino) && |Mutated(m, BytesOf(st, ino))| > Room(st)
  }

  /** The new content exceeds the room because its end does, or, for a write, because the
      old bytes it keeps do. */
  lemma RefusesWhen(st: Store, ino: Ino, m: Mutation)
    requires !m.Negative()
    ensures Refuses(st, ino, m) <==>
            IsFile(st, ino) && (m.End() > Room(st) || (m.Write? && |BytesOf(st, ino)| > Room(st)))
  {
    MutatedBytes(m, BytesOf(st, ino));
  }

  /** The allocation check answers ENOSPC on content made of the bytes `prior` read before.
      In a store where the write would fit it does so exactly if the write itself fits, and
      the file did not when it was read but has since shrunk into the room left. */
  lemma WrongEnospcExactlyWhen(st: Store, c: CallId, ino: Ino, m: Mutation, tries: nat, kv: nat, av: nat, prior: Bytes)
    requires !m.Negative() && IsFile(st, ino)
    ensures WriteStep(st, c, ino, m, WAlloc(tries, kv, av, prior)).1 == WDone(ENOSPC) && !Refuses(st, ino, m) <==>
            m.Write? && m.End() <= Room(st) && |BytesOf(st, ino)| <= Room(st) < |prior|
  {
    MutatedBytes(m, prior);
    RefusesWhen(st, ino, m);
  }

  // ---- A writer's past -------------------------------------------------------------------------

  /** Call `c` writes to `ino` and has begun by moment `j`. */
  ghost predicate Writing(run: seq<Sys>, j: nat, c: CallId, ino: Ino, m: Mutation)
  {
    j < |run| && c in run[j].procs && run[j].procs[c].Mutate? && run[j].procs[c].ino == ino && run[j].procs[c].mutation == m
  }

  ghost predicate GoneDuring(run: seq<Sys>, t: nat, c: CallId, ino: Ino, m: Mutation)
  {
    exists j | 0 <= j <= t :: Writing(run, j, c, ino, m) && ino !in run[j].st.fs.inodes
  }

  ghost predicate NoFileDuring(run: seq<Sys>, t: nat, c: CallId, ino: Ino, m: Mutation)
  {
    exists j | 0 <= j <= t :: Writing(run, j, c, ino, m) && ino in run[j].st.fs.inodes && !IsFile(run[j].st, ino)
  }

  /** At moment `i` of the call the file held these bytes. */
  ghost predicate Held(run: seq<Sys>, i: nat, c: CallId, ino: Ino, m: Mutation, bytes: Bytes)
  {
    Writing(run, i, c, ino, m) && IsFile(run[i].st, ino) && BytesOf(run[i].st, ino) == bytes
  }

  ghost predicate HeldBy(run: seq<Sys>, t: nat, c: CallId, ino: Ino, m: Mutation, bytes: Bytes)
  {
    exists i | 0 <= i <= t :: Held(run, i, c, ino, m, bytes)
  }

  /** The call decided at moment `j` on bytes the file held by then. */
  ghost predicate NoRoomAt(run: seq<Sys>, j: nat, c: CallId, ino: Ino, m: Mutation, prior: Bytes)
    requires !m.Negative()
  {
    Writing(run, j, c, ino, m) && HeldBy(run, j, c, ino, m, prior) && |Mutated(m, prior)| > Room(run[j].st)
  }

  ghost predicate NoRoomDuring(run: seq<Sys>, t: nat, c: CallId, ino: Ino, m: Mutation)
  {
    !m.Negative() && exists j, prior | 0 <= j <= t :: NoRoomAt(run, j, c, ino, m, prior)
  }

  /** How many steps of other calls, scripts or expiries changed a watched key of the call
      since it began. */
  function Disturbing(run: seq<Sys>, actions: seq<Action>, t: nat, c: CallId, ino: Ino): nat
    requires |run| == |actions| + 1 && t < |run|
    decreases t
  {
    if t == 0 then 0
    else
      Disturbing(run, actions, t - 1, c, ino)
      + if c in run[t - 1].procs && !(actions[t - 1].Advance? && actions[t - 1].call == c)
           && Disturbed(run[t - 1].st, run[t].st, ino) then 1 else 0
  }

  /** The versions noted are no longer current. */
  predicate Stale(st: Store, ino: Ino, kv: nat, av: nat)
  {
    kv != Ver(st.inodeVer, ino) || av != st.allocVer
  }

  ghost predicate Counted(st: Store, ino: Ino, tries: nat, kv: nat, av: nat, disturbed: nat)
  {
    && 1 <= tries && kv <= Ver(st.inodeVer, ino) && av <= st.allocVer
    && disturbed + tries >= WRITE_TRIES + if Stale(st, ino, kv, av) then 1 else 0
  }

  /** What a writer's phase at moment `t` says of the moments of its call. */
  ghost predicate Explains(run: seq<Sys>, t: nat, c: CallId, ino: Ino, m: Mutation, ph: WritePhase, disturbed: nat)
    requires t < |run|
  {
    && (!ph.WArgs? && !ph.WDone? ==> !m.Negative() && m.End() <= MAX_FILE_BYTES)
    && match ph
       case WArgs => true
       case WWatch(tries) => 1 <= tries && disturbed + tries >= WRITE_TRIES
       case WMeta(tries, kv, av) => Counted(run[t].st, ino, tries, kv, av, disturbed)
       case WBlob(tries, kv, av, d) =>
         Counted(run[t].st, ino, tries, kv, av, disturbed) && HeldBy(run, t, c, ino, m, d.preimage)
       case WAlloc(tries, kv, av, prior) =>
         Counted(run[t].st, ino, tries, kv, av, disturbed) && HeldBy(run, t, c, ino, m, prior)
       case WExec(tries, kv, av, _, _) => Counted(run[t].st, ino, tries, kv, av, disturbed)
       case WDone(r) =>
         && (r == EINVAL <==> m.Negative())
         && (r == EFBIG <==> !m.Negative() && m.End() > MAX_FILE_BYTES)
         && (r == ENOENT ==> GoneDuring(run, t, c, ino, m))
         && (r == EISDIR ==> NoFileDuring(run, t, c, ino, m))
         && (r == ENOSPC ==> NoRoomDuring(run, t, c, ino, m))
         && (r == EAGAIN ==> disturbed >= WRITE_TRIES)
         && r != EIO
  }

  // ---- Preservation -------------------------------------------------------------------------------

  lemma LaterMoments(run: seq<Sys>, t: nat, u: nat, c: CallId, ino: Ino, m: Mutation)
    requires t <= u < |run|
    ensures GoneDuring(run, t, c, ino, m) ==> GoneDuring(run, u, c, ino, m)
    ensures NoFileDuring(run, t, c, ino, m) ==> NoFileDuring(run, u, c, ino, m)
    ensures forall b :: HeldBy(run, t, c, ino, m, b) ==> HeldBy(run, u, c, ino, m, b)
    ensures NoRoomDuring(run, t, c, ino, m) ==> NoRoomDuring(run, u, c, ino, m)
  {
    hide Writing, Held, NoRoomAt, IsFile;
  }

  /** Another's step: the counts keep up with it. */
  lemma OthersKeepCount(st: Store, st': Store, ino: Ino, tries: nat, kv: nat, av: nat, disturbed: nat)
    requires Counted(st, ino, tries, kv, av, disturbed) && Grows(st, st')
    ensures Counted(st', ino, tries, kv, av, disturbed + if Disturbed(st, st', ino) then 1 else 0)
  {
    hide IsReg;
    MetaDecides(st, st', ino);
  }

  lemma OthersKeepExplaining(run: seq<Sys>, t: nat, c: CallId, ino: Ino, m: Mutation, ph: WritePhase, disturbed: nat)
    requires 0 < t < |run| && Explains(run, t - 1, c, ino, m, ph, disturbed) && Grows(run[t - 1].st, run[t].st)
    ensures Explains(run, t, c, ino, m, ph, disturbed + if Disturbed(run[t - 1].st, run[t].st, ino) then 1 else 0)
  {
    hide Grows, Counted, Disturbed, GoneDuring, NoFileDuring, HeldBy, NoRoomDuring;
    LaterMoments(run, t - 1, t, c, ino, m);
    if ph.WMeta? || ph.WBlob? || ph.WAlloc? || ph.WExec? {
      OthersKeepCount(run[t - 1].st, run[t].st, ino, ph.tries, ph.kv, ph.av, disturbed);
    }
  }

  /** The call's own step, which changes no watched key unless it commits. */
  lemma OwnStepExplains(run: seq<Sys>, t: nat, c: CallId, ino: Ino, m: Mutation, ph: WritePhase, disturbed: nat)
    requires 0 < t < |run| && Explains(run, t - 1, c, ino, m, ph, disturbed)
    requires Writing(run, t - 1, c, ino, m) && BlobsOk(run[t - 1].st) && WriterKnows(run[t - 1].st, ino, m, ph)
    requires var (st', ph', _) := WriteStep(run[t - 1].st, c, ino, m, ph); run[t].st == st'
    ensures Explains(run, t, c, ino, m, WriteStep(run[t - 1].st, c, ino, m, ph).1, disturbed)
  {
    hide GoneDuring, NoFileDuring, HeldBy, NoRoomDuring, Writing, IsReg, Mutated, CommitWrite, Held, NoRoomAt, StillReads;
    LaterMoments(run, t - 1, t, c, ino, m);
    var st := run[t - 1].st;
    match ph
    case WArgs =>
    case WWatch(_) =>
    case WMeta(_, _, _) => MetaExplains(run, t - 1, c, ino, m);
    case WBlob(_, _, _, d) => assert d in st.blobs ==> st.blobs[d] == d.preimage;
    case WAlloc(_, _, _, prior) => AllocExplains(run, t - 1, c, ino, m, prior);
    case WExec(_, _, _, _, _) =>
    case WDone(_) =>
  }

  lemma MetaExplains(run: seq<Sys>, j: nat, c: CallId, ino: Ino, m: Mutation)
    requires j < |run| && Writing(run, j, c, ino, m)
    ensures ino !in run[j].st.fs.inodes ==> GoneDuring(run, j, c, ino, m)
    ensures ino in run[j].st.fs.inodes && !IsReg(run[j].st.fs.inodes[ino].mode) ==> NoFileDuring(run, j, c, ino, m)
    ensures IsFile(run[j].st, ino) ==> HeldBy(run, j, c, ino, m, BytesOf(run[j].st, ino))
  {
    hide IsReg, Writing;
    assert IsFile(run[j].st, ino) ==> Held(run, j, c, ino, m, BytesOf(run[j].st, ino));
  }

  lemma AllocExplains(run: seq<Sys>, j: nat, c: CallId, ino: Ino, m: Mutation, prior: Bytes)
    requires j < |run| && Writing(run, j, c, ino, m) && HeldBy(run, j, c, ino, m, prior) && !m.Negative()
    ensures run[j].st.charged + |Mutated(m, prior)| > MAX_SESSION_BLOB_BYTES ==> NoRoomDuring(run, j, c, ino, m)
  {
    hide Writing, HeldBy, Mutated;
    assert run[j].st.charged + |Mutated(m, prior)| > MAX_SESSION_BLOB_BYTES ==> NoRoomAt(run, j, c, ino, m, prior);
  }

  /** A call's entry changes only by its own steps. */
  lemma ProcFrame(s: Sys, a: Action, c: CallId)
    requires Enabled(s, a) && c in s.procs && !(a.Advance? && a.call == c)
    ensures c in Next(s, a).procs && Next(s, a).procs[c] == s.procs[c]
  {
    hide WriteStep, ResolveStep, ReadStep, FsTree.Apply, Touched, Look, SeenBy;
  }

  lemma OwnFrame(s: Sys, c: CallId, ch: Choice)
    requires Enabled(s, Advance(c, ch)) && s.procs[c].Mutate?
    ensures var Mutate(ino, m, ph) := s.procs[c];
            var (st', ph', _) := WriteStep(s.st, c, ino, m, ph);
            Next(s, Advance(c, ch)).st == st' && c in Next(s, Advance(c, ch)).procs
            && Next(s, Advance(c, ch)).procs[c] == Mutate(ino, m, ph')
  {
    hide WriteStep, Look, SeenBy;
  }

  lemma NewProc(s: Sys, a: Action, c: CallId)
    requires Enabled(s, a) && c !in s.procs && c in Next(s, a).procs && Next(s, a).procs[c].Mutate?
    ensures Next(s, a).procs[c].wphase == WArgs
  {
    hide WriteStep, ResolveStep, ReadStep, FsTree.Apply, Touched, Look, SeenBy;
  }

  /** In every run each writer's phase is explained by moments of its call. */
  lemma {:induction false} WritersAreExplained(run: seq<Sys>, actions: seq<Action>, t: nat, c: CallId)
    requires Run(run, actions) && t < |run| && c in run[t].procs && run[t].procs[c].Mutate?
    ensures var Mutate(ino, m, ph) := run[t].procs[c];
            Explains(run, t, c, ino, m, ph, Disturbing(run, actions, t, c, ino))
    decreases t
  {
    hide Next, Enabled, Inv, Explains, Grows, Disturbed, Initial, WriteStep;
    if t == 0 {
      NoProcs(run[0]);
    } else {
      assert Steps(run[t - 1], actions[t - 1], run[t]);
      RunKeepsInv(run, actions, t - 1);
      StepGrows(run[t - 1], actions[t - 1]);
      if c !in run[t - 1].procs {
        NewProc(run[t - 1], actions[t - 1], c);
        StartExplains(run, actions, t, c);
      } else if actions[t - 1].Advance? && actions[t - 1].call == c {
        OwnMoment(run, actions, t, c);
      } else {
        ProcFrame(run[t - 1], actions[t - 1], c);
        WritersAreExplained(run, actions, t - 1, c);
        var Mutate(ino, m, ph) := run[t].procs[c];
        OthersKeepExplaining(run, t, c, ino, m, ph, Disturbing(run, actions, t - 1, c, ino));
      }
    }
  }

  lemma NoProcs(s: Sys)
    requires Initial(s)
    ensures s.procs == map[]
  {
  }

  lemma StartExplains(run: seq<Sys>, actions: seq<Action>, t: nat, c: CallId)
    requires |run| == |actions| + 1 && t < |run| && c in run[t].procs && run[t].procs[c].Mutate? && run[t].procs[c].wphase == WArgs
    ensures var Mutate(ino, m, ph) := run[t].procs[c];
            Explains(run, t, c, ino, m, ph, Disturbing(run, actions, t, c, ino))
  {
  }

  lemma {:induction false} OwnMoment(run: seq<Sys>, actions: seq<Action>, t: nat, c: CallId)
    requires Run(run, actions) && 0 < t < |run| && c in run[t - 1].procs && c in run[t].procs && run[t].procs[c].Mutate?
    requires actions[t - 1].Advance? && actions[t - 1].call == c && Inv(run[t - 1])
    ensures var Mutate(ino, m, ph) := run[t].procs[c];
            Explains(run, t, c, ino, m, ph, Disturbing(run, actions, t, c, ino))
    decreases t, 0
  {
    hide Next, Enabled, Inv, Explains, Grows, Disturbed, WriteStep;
    assert Steps(run[t - 1], actions[t - 1], run[t]);
    var ch := actions[t - 1].choice;
    StaysMutate(run[t - 1], c, ch);
    OwnFrame(run[t - 1], c, ch);
    WritersAreExplained(run, actions, t - 1, c);
    var Mutate(ino, m, ph) := run[t - 1].procs[c];
    KnownWriter(run[t - 1], c);
    OwnStepExplains(run, t, c, ino, m, ph, Disturbing(run, actions, t - 1, c, ino));
  }

  lemma StaysMutate(s: Sys, c: CallId, ch: Choice)
    requires Enabled(s, Advance(c, ch)) && c in Next(s, Advance(c, ch)).procs && Next(s, Advance(c, ch)).procs[c].Mutate?
    ensures s.procs[c].Mutate?
  {
    hide WriteStep, ResolveStep, ReadStep, Look, SeenBy;
  }

  lemma KnownWriter(s: Sys, c: CallId)
    requires Inv(s) && c in s.procs && s.procs[c].Mutate?
    ensures BlobsOk(s.st) && WriterKnows(s.st, s.procs[c].ino, s.procs[c].mutation, s.procs[c].wphase)
  {
    hide FsTree.Tree, LegalLog, Recorded, Charged, Resolvable, Witnessed, FuturesOk, WriterKnows, WritesBy;
    assert ProcKnows(s, c);
  }

  // ---- The results -------------------------------------------------------------------------------------

  /** Every error of a finished write holds of its arguments or of a moment of the call:
      ENOENT of one without the inode, EISDIR of one where it is no file, EAGAIN only after
      32 changes of a watched key by others, ENOSPC of the room at one moment and the bytes
      the file held at that or an earlier one. */
  lemma WriteErrors(run: seq<Sys>, actions: seq<Action>, e: nat, c: CallId, ino: Ino, m: Mutation, r: WriteResult)
    requires Run(run, actions) && e < |run| && c in run[e].procs && run[e].procs[c] == Mutate(ino, m, WDone(r))
    ensures var (start, end) := match m case Write(o, buf) => (o, o + |buf|) case Truncate(n) => (n, n);
            (r == EINVAL <==> start < 0) && (r == EFBIG <==> start >= 0 && end > 1048576)
    ensures r == ENOENT ==> GoneDuring(run, e, c, ino, m)
    ensures r == EISDIR ==> NoFileDuring(run, e, c, ino, m)
    ensures r == ENOSPC ==> NoRoomDuring(run, e, c, ino, m)
    ensures r == EAGAIN ==> Disturbing(run, actions, e, c, ino) >= 32
    ensures r != EIO
  {
    hide Run, GoneDuring, NoFileDuring, NoRoomDuring, Disturbing;
    WritersAreExplained(run, actions, e, c);
  }

  /** A call that reports ENOSPC decided so at a moment where a write done at once would be
      refused too, exactly unless by then the file is gone, or the write would fit and the
      file, too long for the room when it was read, has shrunk into it. */
  lemma EnospcRightExactlyWhen(run: seq<Sys>, actions: seq<Action>, e: nat, c: CallId, ino: Ino, m: Mutation)
    returns (i: nat, j: nat)
    requires Run(run, actions) && e < |run| && c in run[e].procs && run[e].procs[c] == Mutate(ino, m, WDone(ENOSPC))
    ensures i <= e && j <= e && i <= j && Writing(run, i, c, ino, m) && Writing(run, j, c, ino, m) && IsFile(run[i].st, ino)
    ensures !m.Negative() && |Mutated(m, BytesOf(run[i].st, ino))| > Room(run[j].st)
    ensures var st, room := run[j].st, Room(run[j].st);
            Refuses(st, ino, m) <==>
            IsFile(st, ino)
            && !(m.Write? && m.End() <= room && |BytesOf(st, ino)| <= room < |BytesOf(run[i].st, ino)|)
  {
    hide Run, Writing, Mutated, Refuses;
    WriteErrors(run, actions, e, c, ino, m, ENOSPC);
    var k, prior :| 0 <= k <= e && NoRoomAt(run, k, c, ino, m, prior);
    j := k;
    i :| 0 <= i <= j && Held(run, i, c, ino, m, prior);
    MutatedLength(m, prior);
    RefusesWhen(run[j].st, ino, m);
  }

  lemma MutatedLength(m: Mutation, prior: Bytes)
    requires !m.Negative()
    ensures |Mutated(m, prior)| == if m.Write? && |prior| > m.End() then |prior| else m.End()
  {
    MutatedBytes(m, prior);
  }
}
