/** What the blob table holds, and how large it can grow. */
module ContentStorage {
  import opened Wrappers
  import opened Inodes
  import opened SessionFs
  import opened ContentBytes
  import opened ContentProtocol
  import opened ContentStore
  import opened ContentInvariant
  import opened ContentSteps
  import opened ContentTheorems
  import FsTree

  function InstalledBlobs(log: seq<Event>): set<Digest>
    decreases |log|
  {
    if log == [] then {}
    else InstalledBlobs(Front(log)) + if Newest(log).Installed? then {Digest(Newest(log).content)} else {}
  }

  /** The inodes that ever got generated content. */
  function InstalledInodes(log: seq<Event>): set<Ino>
    decreases |log|
  {
    if log == [] then {}
    else InstalledInodes(Front(log)) + if Newest(log).Installed? then {Newest(log).ino} else {}
  }

  /** The blobs stored are exactly those of committed writes and generations, each change
      within the file limit and to an inode already numbered. */
  ghost predicate Stored(st: Store, log: seq<Event>)
  {
    && st.blobs.Keys == WrittenBlobs(log) + InstalledBlobs(log)
    && forall k | 0 <= k < |log| :: |log[k].content| <= MAX_FILE_BYTES && 1 <= log[k].ino
  }

  /** A step commits at most one change, and stores its bytes and nothing else. */
  ghost predicate Stores(st: Store, st': Store, events: seq<Event>)
  {
    || (events == [] && st'.blobs == st.blobs)
    || (&& |events| == 1
        && st'.blobs.Keys == st.blobs.Keys + {Digest(events[0].content)}
        && events[0].ino in st'.fs.inodes
        && st'.fs.inodes[events[0].ino].contentHash == Some(Digest(events[0].content)))
  }

  lemma WriteStores(st: Store, c: CallId, ino: Ino, m: Mutation, ph: WritePhase)
    ensures var (st', _, events) := WriteStep(st, c, ino, m, ph); Stores(st, st', events)
  {
    hide Mutated, IsReg;
  }

  lemma ResolveStores(st: Store, c: CallId, ino: Ino, ph: ResolvePhase, ch: Choice)
    ensures var (st', _, events) := ResolveStep(st, c, ino, ph, ch); Stores(st, st', events)
  {
    hide Eligible;
  }

  lemma StepStores(s: Sys, a: Action)
    requires Enabled(s, a)
    ensures exists events :: Next(s, a).log == s.log + events && Stores(s.st, Next(s, a).st, events)
  {
    hide WriteStep, ResolveStep, Observed, FsTree.Apply, Touched, ReadStep;
    var s' := Next(s, a);
    ObservedKeeps(Core(s, a));
    if a.Advance? {
      match s.procs[a.call]
      case Mutate(ino, m, ph) =>
        WriteStores(s.st, a.call, ino, m, ph);
        assert s'.log == s.log + WriteStep(s.st, a.call, ino, m, ph).2;
      case Resolve(ino, _, ph) =>
        ResolveStores(s.st, a.call, ino, ph, a.choice);
        assert s'.log == s.log + ResolveStep(s.st, a.call, ino, ph, a.choice).2;
      case Read(_, _, _) => assert s'.log == s.log + [];
    } else {
      assert s'.log == s.log + [];
    }
  }

  lemma ObservedKeeps(s: Sys)
    ensures Observed(s).st == s.st && Observed(s).log == s.log
  {
  }

  lemma OneMoreStored(st: Store, st': Store, log: seq<Event>, e: Event)
    requires Stored(st, log) && Stores(st, st', [e]) && FsTree.Tree(st'.fs) && Resolvable(st')
    ensures Stored(st', log + [e])
  {
    hide FsTree.Tree;
    assert Front(log + [e]) == log && Newest(log + [e]) == e;
    LiveInRange(st'.fs, e.ino);
    forall k | 0 <= k < |log + [e]| ensures |(log + [e])[k].content| <= MAX_FILE_BYTES && 1 <= (log + [e])[k].ino {
      assert k < |log| ==> (log + [e])[k] == log[k];
    }
  }

  lemma StepKeepsStored(s: Sys, a: Action)
    requires Enabled(s, a) && Stored(s.st, s.log) && Inv(Next(s, a))
    ensures Stored(Next(s, a).st, Next(s, a).log)
  {
    assert a.Advance? ==> a.call in s.procs;
    hide Stored, Stores, Next, Enabled, FsTree.Tree, Resolvable, LegalLog, Recorded, Charged, ProcKnows, Witnessed, FuturesOk;
    StepStores(s, a);
    var s' := Next(s, a);
    var events :| s'.log == s.log + events && Stores(s.st, s'.st, events);
    StoresShape(s.st, s'.st, events);
    if events == [] {
      assert s.log + events == s.log;
      SameStored(s.st, s'.st, s.log);
    } else {
      assert events == [events[0]];
      OneMoreStored(s.st, s'.st, s.log, events[0]);
    }
  }

  lemma StoresShape(st: Store, st': Store, events: seq<Event>)
    requires Stores(st, st', events)
    ensures |events| <= 1 && (events == [] ==> st'.blobs == st.blobs)
  {
  }

  lemma SameStored(st: Store, st': Store, log: seq<Event>)
    requires Stored(st, log) && st'.blobs == st.blobs
    ensures Stored(st', log)
  {
  }

  lemma InitialStored(s: Sys)
    requires Initial(s)
    ensures Stored(s.st, s.log)
  {
    hide FsTree.Tree;
  }

  lemma {:induction false} RunKeepsStored(run: seq<Sys>, actions: seq<Action>, t: nat)
    requires Run(run, actions) && t < |run|
    ensures Stored(run[t].st, run[t].log)
    decreases t
  {
    hide Next, Enabled, Stored, Inv, Initial;
    if t == 0 {
      InitialStored(run[0]);
    } else {
      RunKeepsStored(run, actions, t - 1);
      RunKeepsInv(run, actions, t);
      assert Steps(run[t - 1], actions[t - 1], run[t]);
      StepKeepsStored(run[t - 1], actions[t - 1]);
    }
  }

  // ---- Sizes ---------------------------------------------------------------------------------

  lemma {:induction false} TotalSizeOfUnion(a: set<Digest>, b: set<Digest>)
    ensures TotalSize(a + b) <= TotalSize(a) + TotalSize(b)
    decreases |b|
  {
    if b == {} {
      assert a + b == a;
    } else {
      var d :| d in b;
      var rest := b - {d};
      TotalSizeOfUnion(a, rest);
      TotalSizeAdd(rest, d);
      assert rest + {d} == b;
      if d in a + rest {
        assert a + b == a + rest;
      } else {
        TotalSizeAdd(a + rest, d);
        assert a + rest + {d} == a + b;
      }
    }
  }

  lemma {:induction false} InstalledInodesAreLogged(log: seq<Event>, i: Ino)
    requires i in InstalledInodes(log)
    ensures exists k | 0 <= k < |log| :: log[k].ino == i
    decreases |log|
  {
    var n := |log| - 1;
    if i in InstalledInodes(Front(log)) {
      InstalledInodesAreLogged(Front(log), i);
      var k :| 0 <= k < |Front(log)| && Front(log)[k].ino == i;
      assert log[k].ino == i;
    } else {
      assert log[n].ino == i;
    }
  }

  lemma InstallSets(front: seq<Event>, e: Event)
    ensures InstalledBlobs(front + [e]) == InstalledBlobs(front) + if e.Installed? then {Digest(e.content)} else {}
    ensures InstalledInodes(front + [e]) == InstalledInodes(front) + if e.Installed? then {e.ino} else {}
  {
    assert Front(front + [e]) == front && Newest(front + [e]) == e;
  }

  lemma OneMoreInstall(front: seq<Event>, e: Event)
    requires e.Installed? ==> |e.content| <= MAX_FILE_BYTES && e.ino !in InstalledInodes(front)
    requires TotalSize(InstalledBlobs(front)) <= MAX_FILE_BYTES * |InstalledInodes(front)|
    ensures TotalSize(InstalledBlobs(front + [e])) <= MAX_FILE_BYTES * |InstalledInodes(front + [e])|
  {
    hide TotalSize, InstalledBlobs, InstalledInodes;
    InstallSets(front, e);
    var blobs, inodes := InstalledBlobs(front), InstalledInodes(front);
    if e.Installed? {
      TotalSizeOfUnion(blobs, {Digest(e.content)});
      OneBlob(Digest(e.content));
      assert |inodes + {e.ino}| == |inodes| + 1;
    } else {
      assert blobs + {} == blobs && inodes + {} == inodes;
    }
  }

  lemma NoInstalls()
    ensures TotalSize(InstalledBlobs([])) == 0 && InstalledInodes([]) == {}
  {
  }

  /** Generated content takes at most one file's limit for each inode that got any. */
  lemma {:induction false} InstalledSize(log: seq<Event>)
    requires LegalLog(log) && forall k | 0 <= k < |log| :: |log[k].content| <= MAX_FILE_BYTES
    ensures TotalSize(InstalledBlobs(log)) <= MAX_FILE_BYTES * |InstalledInodes(log)|
    decreases |log|
  {
    hide LegalLog, TotalSize, InstalledBlobs, InstalledInodes, Fold;
    if log == [] {
      NoInstalls();
    } else {
      var n := |log| - 1;
      var front, e := log[..n], log[n];
      assert log == front + [e] && forall k | 0 <= k < |front| :: front[k] == log[k];
      LegalAt(log, n);
      InstalledSize(front);
      if e.Installed? && e.ino in InstalledInodes(front) {
        InstalledInodesAreLogged(front, e.ino);
      }
      OneMoreInstall(front, e);
    }
  }

  lemma OneBlob(d: Digest)
    ensures TotalSize({d}) == |d.preimage|
  {
    TotalSizeAdd({}, d);
    assert {} + {d} == {d};
  }

  lemma {:induction false} Upto(s: set<Ino>, n: nat)
    requires forall i <- s :: 1 <= i <= n
    ensures |s| <= n
    decreases n
  {
    if n == 0 {
      assert s == {};
    } else {
      Upto(s - {n}, n - 1);
      assert n in s ==> s == (s - {n}) + {n};
      assert n !in s ==> s == s - {n};
    }
  }

  /** The blob table holds exactly the bytes of committed writes and generations; together
      they take at most the budget charged and one file limit for each inode that ever got
      generated content, of which there are at most 10000. */
  lemma StorageIsBounded(run: seq<Sys>, actions: seq<Action>, t: nat)
    requires Run(run, actions) && t < |run|
    ensures var st, log := run[t].st, run[t].log;
            && st.blobs.Keys == WrittenBlobs(log) + InstalledBlobs(log)
            && TotalSize(st.blobs.Keys) <= st.charged + 1048576 * |InstalledInodes(log)|
            && st.charged <= 16777216
            && |InstalledInodes(log)| <= st.fs.nextInode <= 10000
  {
    hide Run, FsTree.Tree, LegalLog, Witnessed, FuturesOk, ProcKnows, TotalSize, WrittenBlobs, InstalledBlobs, InstalledInodes, BytesWritten, Resolvable;
    var st, log := run[t].st, run[t].log;
    RunKeepsInv(run, actions, t);
    RunKeepsStored(run, actions, t);
    DistinctBlobsCost(log);
    InstalledSize(log);
    TotalSizeOfUnion(WrittenBlobs(log), InstalledBlobs(log));
    forall i <- InstalledInodes(log) ensures 1 <= i <= st.fs.nextInode {
      InstalledInodesAreLogged(log, i);
      var k :| 0 <= k < |log| && log[k].ino == i;
    }
    Upto(InstalledInodes(log), st.fs.nextInode);
    NumbersCapped(st.fs);
  }

  lemma NumbersCapped(fs: Fs)
    requires FsTree.Tree(fs)
    ensures fs.nextInode <= INODE_CAP
  {
    hide FsTree.DirsMatch, FsTree.ParentsOk, FsTree.EntriesOk, FsTree.DotsOk, FsTree.LinksOk;
  }
}
