/** A run in which a write reports ENOSPC although it fits at every moment of its call. */
module ContentWitness {
  import opened Wrappers
  import opened Inodes
  import opened SessionFs
  import opened ContentBytes
  import opened ContentProtocol
  import opened ContentStore
  import opened ContentInvariant
  import opened ContentSteps
  import opened ContentErrors
  import FsTree

  function Last(run: seq<Sys>): Sys requires run != [] { run[|run| - 1] }

  lemma Extend(run: seq<Sys>, actions: seq<Action>, a: Action)
    requires Run(run, actions) && Enabled(Last(run), a)
    ensures Run(run + [Next(Last(run), a)], actions + [a])
  {
    var longer, more := run + [Next(Last(run), a)], actions + [a];
    hide Enabled, Next, Initial;
    forall t | 0 < t < |longer| ensures Steps(longer[t - 1], more[t - 1], longer[t]) {
      if t < |run| {
        assert Steps(run[t - 1], actions[t - 1], run[t]);
        assert longer[t - 1] == run[t - 1] && more[t - 1] == actions[t - 1] && longer[t] == run[t];
      } else {
        assert longer[t - 1] == Last(run) && more[t - 1] == a;
      }
    }
  }

  /** The next command of writer `c`, with nothing special in the environment. */
  function Turn(c: CallId, spare: CallId): Action { Advance(c, Choice(false, [], spare, false)) }

  lemma TurnFrame(s: Sys, c: CallId, spare: CallId)
    requires c in s.procs && s.procs[c].Mutate? && spare !in s.procs
    ensures Enabled(s, Turn(c, spare))
    ensures var Mutate(ino, m, ph) := s.procs[c];
            var (st', ph', _) := WriteStep(s.st, c, ino, m, ph);
            Next(s, Turn(c, spare)).st == st' && Next(s, Turn(c, spare)).procs == s.procs[c := Mutate(ino, m, ph')]
  {
    hide WriteStep, Look, SeenBy;
  }

  /** From moment `from` on only call `c` moved, and every store is one of the two. */
  ghost predicate OnlyMoved(run: seq<Sys>, from: nat, procs: map<CallId, Proc>, c: CallId, st: Store, st': Store)
  {
    forall j | from <= j < |run| ::
      && run[j].procs.Keys == procs.Keys + {c} && (forall x <- procs | x != c :: run[j].procs[x] == procs[x])
      && (run[j].st == st || run[j].st == st')
  }

  lemma TakeTurn(run: seq<Sys>, actions: seq<Action>, c: CallId, spare: CallId)
    returns (longer: seq<Sys>, more: seq<Action>)
    requires Run(run, actions) && c in Last(run).procs && Last(run).procs[c].Mutate? && spare !in Last(run).procs
    ensures Run(longer, more) && |longer| == |run| + 1 && run <= longer
    ensures var Mutate(ino, m, ph) := Last(run).procs[c];
            var (st', ph', _) := WriteStep(Last(run).st, c, ino, m, ph);
            Last(longer).st == st' && Last(longer).procs == Last(run).procs[c := Mutate(ino, m, ph')]
  {
    hide Enabled, Next, Initial, WriteStep;
    TurnFrame(Last(run), c, spare);
    Extend(run, actions, Turn(c, spare));
    longer, more := run + [Next(Last(run), Turn(c, spare))], actions + [Turn(c, spare)];
  }

  lemma Begin(run: seq<Sys>, actions: seq<Action>, c: CallId, ino: Ino, m: Mutation)
    returns (longer: seq<Sys>, more: seq<Action>)
    requires Run(run, actions) && c !in Last(run).procs
    ensures Run(longer, more) && |longer| == |run| + 1 && run <= longer
    ensures Last(longer).st == Last(run).st && Last(longer).procs == Last(run).procs[c := Mutate(ino, m, WArgs)]
    ensures OnlyMoved(longer, |run|, Last(run).procs, c, Last(run).st, Last(run).st)
  {
    hide Initial, Look, SeenBy;
    Extend(run, actions, StartWrite(c, ino, m));
    longer, more := run + [Next(Last(run), StartWrite(c, ino, m))], actions + [StartWrite(c, ino, m)];
  }

  /** A turn that leaves the store alone and takes the writer from one phase to another. */
  lemma ReadTurn(run: seq<Sys>, actions: seq<Action>, from: nat, procs: map<CallId, Proc>, c: CallId, spare: CallId,
                 st: Store, ino: Ino, m: Mutation, ph: WritePhase, next: WritePhase)
    returns (longer: seq<Sys>, more: seq<Action>)
    requires Run(run, actions) && spare !in procs && spare != c && from < |run|
    requires Last(run).procs == procs[c := Mutate(ino, m, ph)] && Last(run).st == st
    requires WriteStep(st, c, ino, m, ph) == (st, next, []) && OnlyMoved(run, from, procs, c, st, st)
    ensures Run(longer, more) && run <= longer && from < |longer| && OnlyMoved(longer, from, procs, c, st, st)
    ensures Last(longer).procs == procs[c := Mutate(ino, m, next)] && Last(longer).st == st
  {
    hide Initial, Next, Enabled, WriteStep;
    longer, more := TakeTurn(run, actions, c, spare);
    forall j | from <= j < |longer|
      ensures longer[j].procs.Keys == procs.Keys + {c} && (forall x <- procs | x != c :: longer[j].procs[x] == procs[x])
      ensures longer[j].st == st
    {
      assert j < |run| ==> longer[j] == run[j];
    }
  }

  lemma ReadingPhases(st: Store, c: CallId, ino: Ino, m: Mutation)
    requires IsFile(st, ino) && !m.Negative() && m.End() <= MAX_FILE_BYTES
    requires match st.fs.inodes[ino].contentHash
             case Some(d) => d in st.blobs && st.blobs[d] == d.preimage
             case None => true
    ensures var kv, av := Ver(st.inodeVer, ino), st.allocVer;
            var alloc := WAlloc(WRITE_TRIES, kv, av, BytesOf(st, ino));
            && WriteStep(st, c, ino, m, WArgs) == (st, WWatch(WRITE_TRIES), [])
            && WriteStep(st, c, ino, m, WWatch(WRITE_TRIES)) == (st, WMeta(WRITE_TRIES, kv, av), [])
            && match st.fs.inodes[ino].contentHash
               case Some(d) =>
                 && WriteStep(st, c, ino, m, WMeta(WRITE_TRIES, kv, av)) == (st, WBlob(WRITE_TRIES, kv, av, d), [])
                 && WriteStep(st, c, ino, m, WBlob(WRITE_TRIES, kv, av, d)) == (st, alloc, [])
               case None => WriteStep(st, c, ino, m, WMeta(WRITE_TRIES, kv, av)) == (st, alloc, [])
  {
    hide IsReg, Mutated;
  }

  /** A writer runs undisturbed up to its allocation check. */
  lemma Approach(run: seq<Sys>, actions: seq<Action>, c: CallId, spare: CallId, ino: Ino, m: Mutation)
    returns (longer: seq<Sys>, more: seq<Action>)
    requires Run(run, actions) && c !in Last(run).procs && spare !in Last(run).procs && spare != c
    requires IsFile(Last(run).st, ino) && !m.Negative() && m.End() <= MAX_FILE_BYTES
    ensures Run(longer, more) && run <= longer && |run| < |longer|
    ensures var st := Last(run).st;
            && Last(longer).st == st && OnlyMoved(longer, |run|, Last(run).procs, c, st, st)
            && Last(longer).procs == Last(run).procs[c := Mutate(ino, m,
                 WAlloc(WRITE_TRIES, Ver(st.inodeVer, ino), st.allocVer, BytesOf(st, ino)))]
  {
    var from, procs, st := |run|, Last(run).procs, Last(run).st;
    StoredBytes(run, actions, ino);
    hide Run, Mutated, IsReg, WriteStep, OnlyMoved, BytesOf;
    var kv, av := Ver(st.inodeVer, ino), st.allocVer;
    ReadingPhases(st, c, ino, m);
    longer, more := Begin(run, actions, c, ino, m);
    longer, more := ReadTurn(longer, more, from, procs, c, spare, st, ino, m, WArgs, WWatch(WRITE_TRIES));
    longer, more := ReadTurn(longer, more, from, procs, c, spare, st, ino, m, WWatch(WRITE_TRIES), WMeta(WRITE_TRIES, kv, av));
    var alloc := WAlloc(WRITE_TRIES, kv, av, BytesOf(st, ino));
    match st.fs.inodes[ino].contentHash
    case None =>
      longer, more := ReadTurn(longer, more, from, procs, c, spare, st, ino, m, WMeta(WRITE_TRIES, kv, av), alloc);
    case Some(d) =>
      var blob := WBlob(WRITE_TRIES, kv, av, d);
      longer, more := ReadTurn(longer, more, from, procs, c, spare, st, ino, m, WMeta(WRITE_TRIES, kv, av), blob);
      longer, more := ReadTurn(longer, more, from, procs, c, spare, st, ino, m, blob, alloc);
  }

  lemma StoredBytes(run: seq<Sys>, actions: seq<Action>, ino: Ino)
    requires Run(run, actions) && ino in Last(run).st.fs.inodes
    ensures var st := Last(run).st;
            match st.fs.inodes[ino].contentHash
            case Some(d) => d in st.blobs && st.blobs[d] == d.preimage == BytesOf(st, ino)
            case None => BytesOf(st, ino) == []
  {
    var last := |run| - 1;
    assert run[last] == Last(run);
    hide FsTree.Tree, LegalLog, Recorded, Charged, Witnessed, FuturesOk, ProcKnows, Next, Run;
    RunKeepsInv(run, actions, last);
  }

  /** The last turn of an undisturbed writer: EXEC goes through. */
  lemma CommitTurn(run: seq<Sys>, actions: seq<Action>, from: nat, procs: map<CallId, Proc>, c: CallId, spare: CallId,
                   st: Store, ino: Ino, m: Mutation, ph: WritePhase)
    returns (longer: seq<Sys>, more: seq<Action>)
    requires Run(run, actions) && spare !in procs && spare != c && from < |run|
    requires Last(run).procs == procs[c := Mutate(ino, m, ph)] && Last(run).st == st
    requires ph.WExec? && ph.kv == Ver(st.inodeVer, ino) && ph.av == st.allocVer && OnlyMoved(run, from, procs, c, st, st)
    ensures Run(longer, more) && run <= longer && from < |longer|
    ensures var st' := CommitWrite(st, ino, ph.content);
            Last(longer).st == st' && OnlyMoved(longer, from, procs, c, st, st')
            && Last(longer).procs.Keys == procs.Keys + {c}
  {
    hide Initial, Next, Enabled, CommitWrite;
    longer, more := TakeTurn(run, actions, c, spare);
    forall j | from <= j < |longer|
      ensures longer[j].procs.Keys == procs.Keys + {c} && (forall x <- procs | x != c :: longer[j].procs[x] == procs[x])
      ensures longer[j].st == st || longer[j].st == CommitWrite(st, ino, ph.content)
    {
      assert j < |run| ==> longer[j] == run[j];
    }
  }

  /** The allocation check of a write that fits goes on to EXEC. */
  lemma FitsGoesOn(st: Store, c: CallId, ino: Ino, m: Mutation, kv: nat, av: nat)
    requires !m.Negative() && IsFile(st, ino) && !Refuses(st, ino, m)
    ensures WriteStep(st, c, ino, m, WAlloc(WRITE_TRIES, kv, av, BytesOf(st, ino))) ==
            (st, WExec(WRITE_TRIES, kv, av, BytesOf(st, ino), Mutated(m, BytesOf(st, ino))), [])
  {
    hide Mutated, BytesOf, IsReg;
  }

  /** A writer runs undisturbed to its end. */
  lemma WriteThrough(run: seq<Sys>, actions: seq<Action>, c: CallId, spare: CallId, ino: Ino, m: Mutation)
    returns (longer: seq<Sys>, more: seq<Action>)
    requires Run(run, actions) && c !in Last(run).procs && spare !in Last(run).procs && spare != c
    requires IsFile(Last(run).st, ino) && !m.Negative() && m.End() <= MAX_FILE_BYTES && !Refuses(Last(run).st, ino, m)
    ensures Run(longer, more) && run <= longer && |run| < |longer|
    ensures var st := Last(run).st;
            var st' := CommitWrite(st, ino, Mutated(m, BytesOf(st, ino)));
            && Last(longer).st == st' && OnlyMoved(longer, |run|, Last(run).procs, c, st, st')
            && Last(longer).procs.Keys == Last(run).procs.Keys + {c}
  {
    var from, procs, st := |run|, Last(run).procs, Last(run).st;
    hide Run, Mutated, IsFile, CommitWrite, BytesOf, OnlyMoved, Refuses, WriteStep;
    var content := Mutated(m, BytesOf(st, ino));
    var kv, av := Ver(st.inodeVer, ino), st.allocVer;
    longer, more := Approach(run, actions, c, spare, ino, m);
    var alloc := WAlloc(WRITE_TRIES, kv, av, BytesOf(st, ino));
    var exec := WExec(WRITE_TRIES, kv, av, BytesOf(st, ino), content);
    FitsGoesOn(st, c, ino, m, kv, av);
    longer, more := ReadTurn(longer, more, from, procs, c, spare, st, ino, m, alloc, exec);
    longer, more := CommitTurn(longer, more, from, procs, c, spare, st, ino, m, exec);
  }

  // ---- The run -----------------------------------------------------------------------------------

  const MIB: nat := 1024 * 1024
  const FULL := Truncate(MIB)
  const EMPTIED := Truncate(0)
  const ONE_BYTE: Mutation := Write(0, [7])
  const SPARE: CallId := 200

  /** The namespace with two empty files. */
  function TwoFilesMade(): Fs
  {
    FsTree.Apply(FsTree.Apply(FsTree.ROOT_FS, FsTree.Call.Create(1, "a", 33188)), FsTree.Call.Create(1, "b", 33188))
  }

  function Fresh(): Sys
  {
    Sys(Store(TwoFilesMade(), map[], 0, map[], map[], map[], 0), map[], map[], [], map[])
  }

  lemma FreshIsInitial()
    ensures Initial(Fresh()) && IsFile(Fresh().st, 2) && IsFile(Fresh().st, 3)
    ensures BytesOf(Fresh().st, 2) == [] && BytesOf(Fresh().st, 3) == []
  {
    hide FsTree.Tree, TwoFilesMade, IsReg;
    TwoFiles();
    FilesAreTree();
  }

  lemma FilesAreTree()
    ensures FsTree.Tree(TwoFilesMade())
  {
    var first, second := FsTree.Call.Create(1, "a", 33188), FsTree.Call.Create(1, "b", 33188);
    assert first.Typed() && second.Typed();
    hide FsTree.TreeOf, FsTree.Apply;
    FsTree.RootIsTree();
    var par := FsTree.ApplyKeepsTree(FsTree.ROOT_FS, map[], first);
    par := FsTree.ApplyKeepsTree(FsTree.Apply(FsTree.ROOT_FS, first), par, second);
    assert FsTree.TreeOf(TwoFilesMade(), par);
  }

  lemma TwoFiles()
    ensures TwoFilesMade().inodes.Keys == {1, 2, 3} && IsReg(TwoFilesMade().inodes[2].mode) && IsReg(TwoFilesMade().inodes[3].mode)
    ensures forall i <- TwoFilesMade().inodes :: TwoFilesMade().inodes[i].contentHash.None? && TwoFilesMade().inodes[i].revision == 0
  {
    assert IsDir(16877) && IsReg(33188);
    assert "a"[0] != '.' && "b"[0] != '.';
    assert "a" != "b" by { assert "a"[0] != "b"[0]; }
    var one := FsTree.Apply(FsTree.ROOT_FS, FsTree.Call.Create(1, "a", 33188));
    assert one.inodes.Keys == {1, 2} && one.nextInode == 2;
  }

  /** Both are files; inode 2 holds `size` bytes and inode 3 none. */
  ghost predicate TwoFilesIn(st: Store, charged: nat, size: nat)
  {
    IsFile(st, 2) && IsFile(st, 3) && st.charged == charged && |BytesOf(st, 2)| == size && BytesOf(st, 3) == []
  }

  lemma CommitEffect(st: Store, ino: Ino, content: Bytes, other: Ino)
    requires IsFile(st, ino) && IsFile(st, other) && ino != other
    ensures var st' := CommitWrite(st, ino, content);
            && IsFile(st', ino) && IsFile(st', other) && st'.charged == st.charged + |content|
            && BytesOf(st', ino) == content && BytesOf(st', other) == BytesOf(st, other)
  {
    hide IsReg;
  }

  ghost predicate CallsWithin(run: seq<Sys>, k: int)
  {
    forall j, c | 0 <= j < |run| && c in run[j].procs :: c <= k
  }

  /** Filling the same file `k` times charges `k` MiB. */
  lemma {:induction false} Fill(k: nat) returns (run: seq<Sys>, actions: seq<Action>)
    requires k <= 15
    ensures run != [] && TwoFilesIn(Last(run).st, k * MIB, if k == 0 then 0 else MIB)
    ensures CallsWithin(run, k) && Run(run, actions)
    decreases k
  {
    hide Run, TwoFilesIn, Initial, Fresh;
    if k == 0 {
      FreshIsInitial();
      run, actions := [Fresh()], [];
      RunsAlone(Fresh());
      FreshHasNone();
    } else {
      run, actions := Fill(k - 1);
      run, actions := FillOnce(run, actions, k);
    }
  }

  lemma FillOnce(before: seq<Sys>, acts: seq<Action>, k: nat) returns (run: seq<Sys>, actions: seq<Action>)
    requires 1 <= k <= 15 && before != []
    requires TwoFilesIn(Last(before).st, (k - 1) * MIB, if k == 1 then 0 else MIB)
    requires CallsWithin(before, k - 1) && Run(before, acts)
    ensures run != [] && TwoFilesIn(Last(run).st, k * MIB, MIB)
    ensures CallsWithin(run, k) && Run(run, actions)
  {
    hide *;
    FillFits(Last(before).st, k);
    NewCall(before, k);
    run, actions := WriteThrough(before, acts, k, SPARE, 2, FULL);
    Filled(Last(before).st, k);
    CallsUpTo(before, run, k);
  }

  lemma CallsUpTo(before: seq<Sys>, run: seq<Sys>, k: nat)
    requires before != [] && before <= run && CallsWithin(before, k - 1)
    requires exists st, st' :: OnlyMoved(run, |before|, Last(before).procs, k, st, st')
    ensures CallsWithin(run, k)
  {
    var st, st' :| OnlyMoved(run, |before|, Last(before).procs, k, st, st');
    forall j, c | 0 <= j < |run| && c in run[j].procs ensures c <= k {
      if j < |before| {
        assert run[j] == before[j];
      } else {
        assert c in Last(before).procs.Keys + {k};
      }
    }
  }

  lemma RunsAlone(s: Sys)
    requires Initial(s)
    ensures Run([s], [])
  {
  }

  lemma FreshHasNone()
    ensures Fresh().procs == map[] && TwoFilesIn(Fresh().st, 0, 0)
  {
    hide TwoFilesMade, IsFile, BytesOf;
    FreshIsInitial();
  }

  lemma FillFits(st: Store, k: nat)
    requires 1 <= k <= 15 && TwoFilesIn(st, (k - 1) * MIB, if k == 1 then 0 else MIB)
    ensures IsFile(st, 2) && !FULL.Negative() && FULL.End() <= MAX_FILE_BYTES && !Refuses(st, 2, FULL)
  {
    hide IsReg, BytesOf;
    RefusesWhen(st, 2, FULL);
  }

  lemma Filled(st: Store, k: nat)
    requires 1 <= k <= 15 && TwoFilesIn(st, (k - 1) * MIB, if k == 1 then 0 else MIB)
    ensures !FULL.Negative() && TwoFilesIn(CommitWrite(st, 2, Mutated(FULL, BytesOf(st, 2))), k * MIB, MIB)
  {
    hide IsReg, BytesOf, CommitWrite, Mutated;
    MutatedLength(FULL, BytesOf(st, 2));
    CommitEffect(st, 2, Mutated(FULL, BytesOf(st, 2)), 3);
  }

  lemma NewCall(run: seq<Sys>, k: nat)
    requires run != [] && 1 <= k <= 15 && CallsWithin(run, k - 1)
    ensures k !in Last(run).procs && SPARE !in Last(run).procs && SPARE != k
  {
  }

  /** Wherever call 100 has begun, its inode is a file and the write would fit. */
  ghost predicate AlwaysFits(run: seq<Sys>)
  {
    forall j | 0 <= j < |run| && 100 in run[j].procs :: IsFile(run[j].st, 2) && !Refuses(run[j].st, 2, ONE_BYTE)
  }

  lemma FitsLonger(run: seq<Sys>, longer: seq<Sys>, procs: map<CallId, Proc>, c: CallId, st: Store, st': Store)
    requires AlwaysFits(run) && run <= longer && OnlyMoved(longer, |run|, procs, c, st, st')
    requires IsFile(st, 2) && !Refuses(st, 2, ONE_BYTE) && IsFile(st', 2) && !Refuses(st', 2, ONE_BYTE)
    ensures AlwaysFits(longer)
  {
    hide IsFile, Refuses;
    forall j | 0 <= j < |longer| && 100 in longer[j].procs
      ensures IsFile(longer[j].st, 2) && !Refuses(longer[j].st, 2, ONE_BYTE)
    {
      assert j < |run| ==> longer[j] == run[j];
    }
  }

  /** The write has read a 1 MiB file with 1 MiB of budget left. */
  lemma ReadFull() returns (run: seq<Sys>, actions: seq<Action>)
    ensures Run(run, actions) && run != [] && AlwaysFits(run) && TwoFilesIn(Last(run).st, 15 * MIB, MIB)
    ensures var procs := Last(run).procs;
            && 100 in procs && 101 !in procs && 102 !in procs && SPARE !in procs
            && procs[100].Mutate? && procs[100].ino == 2 && procs[100].mutation == ONE_BYTE
            && procs[100].wphase.WAlloc? && |procs[100].wphase.prior| == MIB
  {
    var filled, acts := Fill(15);
    hide Run, IsReg, BytesOf, Refuses, OnlyMoved;
    var procs, st := Last(filled).procs, Last(filled).st;
    assert 100 !in procs && 101 !in procs && 102 !in procs && SPARE !in procs;
    FitsFull(st);
    run, actions := Approach(filled, acts, 100, SPARE, 2, ONE_BYTE);
    NotYet(filled);
    FitsLonger(filled, run, procs, 100, st, st);
  }

  lemma NotYet(run: seq<Sys>)
    requires forall j, c | 0 <= j < |run| && c in run[j].procs :: c <= 15
    ensures AlwaysFits(run)
  {
  }

  /** Then the file is emptied, and one byte goes to the other file. */
  lemma Shrunk() returns (run: seq<Sys>, actions: seq<Action>)
    ensures Run(run, actions) && run != [] && AlwaysFits(run)
    ensures IsFile(Last(run).st, 2) && Last(run).st.charged == 15 * MIB + 1 && BytesOf(Last(run).st, 2) == []
    ensures var procs := Last(run).procs;
            && 100 in procs && SPARE !in procs
            && procs[100].Mutate? && procs[100].ino == 2 && procs[100].mutation == ONE_BYTE
            && procs[100].wphase.WAlloc? && |procs[100].wphase.prior| == MIB
  {
    var read, acts := ReadFull();
    var st0, procs0 := Last(read).st, Last(read).procs;
    hide Run, Mutated, IsReg, CommitWrite, BytesOf, Refuses, AlwaysFits;
    FitsFull(st0);
    var emptied, acts1 := WriteThrough(read, acts, 101, SPARE, 2, EMPTIED);
    var st1, procs1 := Last(emptied).st, Last(emptied).procs;
    MutatedLength(EMPTIED, BytesOf(st0, 2));
    CommitEffect(st0, 2, Mutated(EMPTIED, BytesOf(st0, 2)), 3);
    FitsEmptied(st1);
    FitsLonger(read, emptied, procs0, 101, st0, st1);
    run, actions := WriteThrough(emptied, acts1, 102, SPARE, 3, ONE_BYTE);
    MutatedLength(ONE_BYTE, BytesOf(st1, 3));
    CommitEffect(st1, 3, Mutated(ONE_BYTE, BytesOf(st1, 3)), 2);
    FitsStill(Last(run).st);
    FitsLonger(emptied, run, procs1, 102, st1, Last(run).st);
    assert procs1[100] == procs0[100] && Last(run).procs[100] == procs1[100];
  }

  /** A one-byte write reads a 1 MiB file with 1 MiB of budget left; the file is emptied and
      one byte goes to another file; the allocation check then says ENOSPC, although at
      every moment of its call the write fits. */
  lemma EnospcCanBeWrong() returns (run: seq<Sys>, actions: seq<Action>)
    ensures Run(run, actions) && run != []
    ensures 100 in Last(run).procs && Last(run).procs[100] == Mutate(2, ONE_BYTE, WDone(ENOSPC))
    ensures forall j | 0 <= j < |run| && 100 in run[j].procs ::
              IsFile(run[j].st, 2) && !Refuses(run[j].st, 2, ONE_BYTE)
  {
    var before, acts := Shrunk();
    var st, ph := Last(before).st, Last(before).procs[100].wphase;
    hide Run, Mutated, IsReg, CommitWrite, BytesOf, Refuses;
    MutatedLength(ONE_BYTE, ph.prior);
    run, actions := TakeTurn(before, acts, 100, SPARE);
    FitsStill(st);
    assert Last(run).st == st;
    forall j | 0 <= j < |run| && 100 in run[j].procs
      ensures IsFile(run[j].st, 2) && !Refuses(run[j].st, 2, ONE_BYTE)
    {
      assert j < |before| ==> run[j] == before[j];
    }
  }

  lemma FitsFull(st: Store)
    requires TwoFilesIn(st, 15 * MIB, MIB)
    ensures !Refuses(st, 2, ONE_BYTE) && !Refuses(st, 2, EMPTIED)
  {
    hide IsReg, BytesOf;
    RefusesWhen(st, 2, ONE_BYTE);
    RefusesWhen(st, 2, EMPTIED);
  }

  lemma FitsEmptied(st: Store)
    requires TwoFilesIn(st, 15 * MIB, 0)
    ensures !Refuses(st, 2, ONE_BYTE) && !Refuses(st, 3, ONE_BYTE)
  {
    hide IsReg, BytesOf;
    RefusesWhen(st, 2, ONE_BYTE);
    RefusesWhen(st, 3, ONE_BYTE);
  }

  lemma FitsStill(st: Store)
    requires IsFile(st, 2) && st.charged == 15 * MIB + 1 && BytesOf(st, 2) == []
    ensures !Refuses(st, 2, ONE_BYTE)
  {
    hide IsReg, BytesOf;
    RefusesWhen(st, 2, ONE_BYTE);
  }
}
