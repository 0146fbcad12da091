/** What the content protocol promises over whole runs. */
module ContentTheorems {
  import opened Wrappers
  import opened Inodes
  import opened ContentBytes
  import opened ContentProtocol
  import opened ContentStore
  import opened ContentInvariant
  import opened ContentSteps
  import FsTree

  // ---- Reads ----------------------------------------------------------------------

  /** At moment `j`, with call `c` already begun, a look at its inode showed `x`. */
  ghost predicate Showed(run: seq<Sys>, j: nat, c: CallId, x: Sight)
  {
    j < |run| && c in run[j].procs && Look(run[j].st, run[j].procs[c].ino) == x
  }

  lemma {:induction false} SeenWasShown(run: seq<Sys>, actions: seq<Action>, e: nat, c: CallId, x: Sight)
    returns (j: nat)
    requires Run(run, actions) && e < |run| && x in SeenBy(run[e], c)
    ensures j <= e && Showed(run, j, c, x)
    decreases e
  {
    hide Enabled, Core, Look;
    if e == 0 {
      assert false;
    } else {
      assert Steps(run[e - 1], actions[e - 1], run[e]);
      if x in SeenBy(run[e - 1], c) {
        j := SeenWasShown(run, actions, e - 1, c, x);
      } else {
        SeenHasCall(run, actions, e, c, x);
        j := e;
      }
    }
  }

  lemma SeenHasCall(run: seq<Sys>, actions: seq<Action>, e: nat, c: CallId, x: Sight)
    requires Run(run, actions) && 0 < e < |run| && x in SeenBy(run[e], c) && x !in SeenBy(run[e - 1], c)
    ensures Showed(run, e, c, x)
  {
    hide Touched, Look, Core, Observed, SeenBy, Initial;
    var s := run[e - 1];
    assert Steps(s, actions[e - 1], run[e]);
    assert run[e] == Observed(Core(s, actions[e - 1]));
    CoreKeepsSeen(s, actions[e - 1]);
    ObservedAdds(s, Core(s, actions[e - 1]), c, x);
  }

  lemma ObservedAdds(s: Sys, s1: Sys, c: CallId, x: Sight)
    requires s1.seen == s.seen && x in SeenBy(Observed(s1), c) && x !in SeenBy(s, c)
    ensures c in Observed(s1).procs && x == Look(Observed(s1).st, Observed(s1).procs[c].ino)
  {
    hide Look;
  }

  lemma CoreKeepsSeen(s: Sys, a: Action)
    requires a.Advance? ==> a.call in s.procs
    ensures Core(s, a).seen == s.seen
  {
    hide WriteStep, ResolveStep, ReadStep, FsTree.Apply;
  }

  /** Call `c` is a finished get_or_generate call with result `r` at moment `e`. */
  ghost predicate Returned(s: Sys, c: CallId, r: ReadResult)
  {
    c in s.procs && s.procs[c].Read? && s.procs[c].gphase == GDone(r)
  }

  /** Whatever interleaves with it, the bytes a read returns (from the cache, a joined
      future, its own generation or a superseded one) were the inode's content at some
      moment of the call; "not found" means the inode was gone at some moment of it, and
      empty bytes without content only occur for a class that is never generated. */
  lemma LinearizableRead(run: seq<Sys>, actions: seq<Action>, e: nat, c: CallId, r: ReadResult)
    returns (j: nat)
    requires Run(run, actions) && e < |run| && Returned(run[e], c, r)
    ensures r != IOError
    ensures r.Content? || r.NotFound? || r.Bare? ==> j <= e && c in run[j].procs
    ensures r.Content? ==>
              var (fs, ino) := (run[j].st.fs, run[e].procs[c].ino);
              ino in fs.inodes && fs.inodes[ino].contentHash == Some(Digest(r.bytes))
    ensures r.NotFound? ==> run[e].procs[c].ino !in run[j].st.fs.inodes
    ensures r.Bare? ==>
              var (fs, ino) := (run[j].st.fs, run[e].procs[c].ino);
              && ino in fs.inodes && fs.inodes[ino].contentHash.None?
              && fs.inodes[ino].manifestClass != Some("ai_backed") && fs.inodes[ino].manifestClass != Some("deterministic")
  {
    RunKeepsInv(run, actions, e);
    ResultWasSeen(run[e], c, r);
    hide Run, Inv, Showed, SeenBy, Returned;
    j := 0;
    if r.Content? || r.NotFound? || r.Bare? {
      j := SeenWasShown(run, actions, e, c, SightOf(r));
      ShowedMeans(run, j, c, SightOf(r));
      SameInode(run, actions, j, e, c);
    }
  }

  function SightOf(r: ReadResult): Sight
  {
    if r.Content? then Holding(r.bytes) else if r.NotFound? then Gone else Unwritten(false)
  }

  lemma ResultWasSeen(s: Sys, c: CallId, r: ReadResult)
    requires Inv(s) && Returned(s, c, r)
    ensures r != IOError && (r.Content? || r.NotFound? || r.Bare? ==> SightOf(r) in SeenBy(s, c))
  {
    hide StoreOk, Witnessed, FuturesOk;
    assert ProcKnows(s, c);
  }

  /** What a look saw, in the record's own terms. */
  lemma ShowedMeans(run: seq<Sys>, j: nat, c: CallId, x: Sight)
    requires Showed(run, j, c, x)
    ensures c in run[j].procs
    ensures var (fs, ino) := (run[j].st.fs, run[j].procs[c].ino);
            match x
            case Gone => ino !in fs.inodes
            case Holding(bytes) => ino in fs.inodes && fs.inodes[ino].contentHash == Some(Digest(bytes))
            case Unwritten(eligible) =>
              && ino in fs.inodes && fs.inodes[ino].contentHash.None?
              && (eligible <==>
                  fs.inodes[ino].manifestClass == Some("ai_backed") || fs.inodes[ino].manifestClass == Some("deterministic"))
  {
  }

  /** A call stays with its inode. */
  lemma {:induction false} SameInode(run: seq<Sys>, actions: seq<Action>, j: nat, e: nat, c: CallId)
    requires Run(run, actions) && j <= e < |run| && c in run[j].procs
    ensures c in run[e].procs && run[e].procs[c].ino == run[j].procs[c].ino
    decreases e
  {
    hide Enabled, Next, Initial;
    if j < e {
      SameInode(run, actions, j, e - 1, c);
      assert Steps(run[e - 1], actions[e - 1], run[e]);
      ProcStays(run[e - 1], actions[e - 1], c);
    }
  }

  lemma ProcStays(s: Sys, a: Action, c: CallId)
    requires Enabled(s, a) && c in s.procs
    ensures c in Next(s, a).procs && Next(s, a).procs[c].ino == s.procs[c].ino
  {
    hide WriteStep, ResolveStep, ReadStep, FsTree.Apply, Touched, Look, SeenBy;
  }

  // ---- Writes ------------------------------------------------------------------------

  /** No update is lost: at every moment a file's bytes are the logged mutations applied
      in order to nothing or to the generated bytes, and its revision is their number. */
  lemma NoLostUpdates(run: seq<Sys>, actions: seq<Action>, t: nat, i: Ino)
    requires Run(run, actions) && t < |run| && i in run[t].st.fs.inodes
    ensures run[t].st.fs.inodes[i].contentHash == DigestOf(Fold(run[t].log, i))
    ensures run[t].st.fs.inodes[i].revision == WritesTo(run[t].log, i)
  {
    hide FsTree.Tree, LegalLog, Witnessed, FuturesOk, ProcKnows, Fold, WritesTo, Charged, Next;
    RunKeepsInv(run, actions, t);
  }

  /** A write that reports success was committed exactly once; one that reports an error
      (including exhausted retries), or has not returned, was not committed at all. A
      stored blob never turns out to be missing. */
  lemma WriteOutcome(run: seq<Sys>, actions: seq<Action>, t: nat, c: CallId)
    requires Run(run, actions) && t < |run| && c in run[t].procs && run[t].procs[c].Mutate?
    ensures var ph := run[t].procs[c].wphase;
            && WritesBy(run[t].log, c) == (if ph == WDone(WriteResult.Written) then 1 else 0)
            && ph != WDone(EIO)
  {
    hide StoreOk, Witnessed, FuturesOk, WritesBy, Next;
    RunKeepsInv(run, actions, t);
    assert ProcKnows(run[t], c);
  }

  /** The log only grows. */
  lemma {:induction false} LogGrows(run: seq<Sys>, actions: seq<Action>, s: nat, t: nat)
    requires Run(run, actions) && s <= t < |run|
    ensures run[s].log <= run[t].log
    decreases t - s
  {
    hide Inv, Enabled, Next;
    if s < t {
      LogGrows(run, actions, s, t - 1);
      RunKeepsInv(run, actions, t - 1);
      assert Steps(run[t - 1], actions[t - 1], run[t]);
      StepGrows(run[t - 1], actions[t - 1]);
    }
  }

  // ---- Fencing ------------------------------------------------------------------------

  lemma {:induction false} LegalAt(log: seq<Event>, k: nat)
    requires LegalLog(log) && k < |log|
    ensures LegalLog(log[..k])
    ensures log[k].Installed? ==> forall j | 0 <= j < k :: log[j].ino != log[k].ino
    ensures log[k].Wrote? ==>
              !log[k].mutation.Negative() &&
              var before := Fold(log[..k], log[k].ino);
              log[k].content == Mutated(log[k].mutation, if before.Some? then before.value else [])
    decreases |log|
  {
    hide Mutated;
    if k < |log| - 1 {
      LegalAt(Front(log), k);
      assert Front(log)[..k] == log[..k] && Front(log)[k] == log[k];
      forall j | 0 <= j < k && log[k].Installed? ensures log[j].ino != log[k].ino {
        assert Front(log)[j] == log[j];
      }
    } else {
      assert Front(log) == log[..k];
    }
  }

  /** Generated bytes are installed at most once per inode, and only before any write;
      each committed write is its mutation of exactly the bytes before it. */
  lemma Fencing(run: seq<Sys>, actions: seq<Action>, t: nat, k: nat)
    requires Run(run, actions) && t < |run| && k < |run[t].log|
    ensures var log := run[t].log;
            && (log[k].Installed? ==> forall j | 0 <= j < k :: log[j].ino != log[k].ino)
            && (log[k].Wrote? ==>
                  !log[k].mutation.Negative() &&
                  var before := Fold(log[..k], log[k].ino);
                  log[k].content == Mutated(log[k].mutation, if before.Some? then before.value else []))
  {
    hide LegalLog, Fold, Mutated, Witnessed, FuturesOk, ProcKnows, Next;
    RunKeepsInv(run, actions, t);
    LegalAt(run[t].log, k);
  }

  /** Once an inode has been written, later installations leave it alone: every further
      change of its content is again a write. */
  lemma NoGenerationAfterWrite(run: seq<Sys>, actions: seq<Action>, t: nat, j: nat, k: nat)
    requires Run(run, actions) && t < |run| && j < k < |run[t].log|
    requires run[t].log[j].ino == run[t].log[k].ino
    ensures run[t].log[k].Wrote?
  {
    hide Next;
    Fencing(run, actions, t, k);
  }

  /** Neither a commit nor a write nor a script brings a removed inode back. */
  lemma {:induction false} DeletedStaysDeleted(run: seq<Sys>, actions: seq<Action>, s: nat, t: nat, i: Ino)
    requires Run(run, actions) && s <= t < |run|
    requires i <= run[s].st.fs.nextInode && i !in run[s].st.fs.inodes
    ensures i !in run[t].st.fs.inodes && i <= run[t].st.fs.nextInode
    decreases t - s
  {
    hide Inv, Enabled, Next;
    if s < t {
      DeletedStaysDeleted(run, actions, s, t - 1, i);
      RunKeepsInv(run, actions, t - 1);
      assert Steps(run[t - 1], actions[t - 1], run[t]);
      StepGrows(run[t - 1], actions[t - 1]);
    }
  }

  // ---- Storage budget --------------------------------------------------------------------

  /** The bytes all distinct blobs of a set take together. */
  ghost function TotalSize(blobs: set<Digest>): nat
  {
    if blobs == {} then 0
    else
      var d :| d in blobs;
      |d.preimage| + TotalSize(blobs - {d})
  }

  lemma {:induction false} TotalSizeAdd(blobs: set<Digest>, x: Digest)
    requires x !in blobs
    ensures TotalSize(blobs + {x}) == |x.preimage| + TotalSize(blobs)
    decreases |blobs|
  {
    var all := blobs + {x};
    assert all != {};
    var d :| d in all && TotalSize(all) == |d.preimage| + TotalSize(all - {d});
    if d == x {
      assert all - {d} == blobs;
    } else {
      var rest := blobs - {d};
      assert d in blobs && all - {d} == rest + {x} && blobs == rest + {d};
      TotalSizeAdd(rest, x);
      TotalSizeAdd(rest, d);
    }
  }

  function WrittenBlobs(log: seq<Event>): set<Digest>
    decreases |log|
  {
    if log == [] then {}
    else WrittenBlobs(Front(log)) + if Newest(log).Wrote? then {Digest(Newest(log).content)} else {}
  }

  lemma {:induction false} DistinctBlobsCost(log: seq<Event>)
    ensures TotalSize(WrittenBlobs(log)) <= BytesWritten(log)
    decreases |log|
  {
    if log != [] {
      DistinctBlobsCost(Front(log));
      assert WrittenBlobs(Front(log)) + {} == WrittenBlobs(Front(log));
      if Newest(log).Wrote? {
        var d := Digest(Newest(log).content);
        var before := WrittenBlobs(Front(log));
        if d in before {
          assert before + {d} == before;
        } else {
          TotalSizeAdd(before, d);
        }
      }
    }
  }

  /** The allocation counter is the sum of all committed write sizes and stays within the
      session budget; the distinct blobs writes created never take more than it says. */
  lemma BudgetHolds(run: seq<Sys>, actions: seq<Action>, t: nat)
    requires Run(run, actions) && t < |run|
    ensures run[t].st.charged == BytesWritten(run[t].log) <= 16777216
    ensures TotalSize(WrittenBlobs(run[t].log)) <= run[t].st.charged
  {
    hide FsTree.Tree, LegalLog, Recorded, Witnessed, FuturesOk, ProcKnows, Next, BytesWritten;
    RunKeepsInv(run, actions, t);
    DistinctBlobsCost(run[t].log);
  }

  /** Every content hash resolves, to bytes of the recorded size and within the file
      limit, also after other inodes sharing the blob were unlinked. */
  lemma EveryHashResolves(run: seq<Sys>, actions: seq<Action>, t: nat, i: Ino)
    requires Run(run, actions) && t < |run|
    requires i in run[t].st.fs.inodes && run[t].st.fs.inodes[i].contentHash.Some?
    ensures var d := run[t].st.fs.inodes[i].contentHash.value;
            && d in run[t].st.blobs && run[t].st.blobs[d] == d.preimage
            && |d.preimage| == run[t].st.fs.inodes[i].size <= 1048576
  {
    hide FsTree.Tree, LegalLog, Recorded, Charged, Witnessed, FuturesOk, ProcKnows, Next;
    RunKeepsInv(run, actions, t);
  }
}
