/** What each step does to the store: how it can grow, and what it records in the log. */
module ContentStore {
  import opened Wrappers
  import opened Inodes
  import opened SessionFs
  import opened ContentBytes
  import opened ContentProtocol
  import FsTree

  // ---- The log -------------------------------------------------------------------

  function Front(log: seq<Event>): seq<Event> requires log != [] { log[..|log| - 1] }

  function Newest(log: seq<Event>): Event requires log != [] { log[|log| - 1] }

  /** The bytes of inode `i` after the logged changes, applied in order: generated bytes
      replace, each mutation acts on what the earlier ones left. */
  function Fold(log: seq<Event>, i: Ino): Option<Bytes>
    decreases |log|
  {
    if log == [] then None
    else
      var before := Fold(Front(log), i);
      var e := Newest(log);
      if e.ino != i then before
      else match e
           case Installed(_, _, b) => Some(b)
           case Wrote(_, _, m, _) =>
             if m.Negative() then before
             else Some(Mutated(m, if before.Some? then before.value else []))
  }

  function WritesTo(log: seq<Event>, i: Ino): nat
    decreases |log|
  {
    if log == [] then 0
    else WritesTo(Front(log), i) + if Newest(log).Wrote? && Newest(log).ino == i then 1 else 0
  }

  function WritesBy(log: seq<Event>, c: CallId): nat
    decreases |log|
  {
    if log == [] then 0
    else WritesBy(Front(log), c) + if Newest(log).Wrote? && Newest(log).call == c then 1 else 0
  }

  function BytesWritten(log: seq<Event>): nat
    decreases |log|
  {
    if log == [] then 0
    else BytesWritten(Front(log)) + if Newest(log).Wrote? then |Newest(log).content| else 0
  }

  /** Every recorded change was legal when it was made: a write's bytes are its mutation
      of the bytes before it, and generation only ever fills an untouched inode. */
  ghost predicate LegalLog(log: seq<Event>)
    decreases |log|
  {
    log != [] ==>
      && LegalLog(Front(log))
      && (match Newest(log)
          case Wrote(_, i, m, b) => !m.Negative() && Some(b) == Fold(log, i)
          case Installed(_, i, _) => forall k | 0 <= k < |log| - 1 :: log[k].ino != i)
  }

  lemma AppendEvent(log: seq<Event>, e: Event)
    ensures var more := log + [e]; more != [] && Front(more) == log && Newest(more) == e
  {
    assert (log + [e])[..|log|] == log;
  }

  lemma {:induction false} NoBytesNoEvents(log: seq<Event>, i: Ino)
    requires LegalLog(log) && Fold(log, i).None?
    ensures forall k | 0 <= k < |log| :: log[k].ino != i
    ensures WritesTo(log, i) == 0
    decreases |log|
  {
    if log != [] {
      NoBytesNoEvents(Front(log), i);
      forall k | 0 <= k < |log| ensures log[k].ino != i {
        if k < |log| - 1 { assert log[k] == Front(log)[k]; }
      }
    }
  }

  lemma {:induction false} NoEventsNoBytes(log: seq<Event>, i: Ino)
    requires forall k | 0 <= k < |log| :: log[k].ino != i
    ensures Fold(log, i).None? && WritesTo(log, i) == 0
    decreases |log|
  {
    if log != [] {
      forall k | 0 <= k < |Front(log)| ensures Front(log)[k].ino != i { assert Front(log)[k] == log[k]; }
      NoEventsNoBytes(Front(log), i);
    }
  }

  // ---- The store and the log agree ------------------------------------------------

  ghost predicate BlobsOk(st: Store)
  {
    forall d <- st.blobs :: st.blobs[d] == d.preimage
  }

  /** Every content hash resolves to bytes of the recorded size, within the file limit. */
  ghost predicate Resolvable(st: Store)
  {
    forall i <- st.fs.inodes ::
      match st.fs.inodes[i].contentHash
      case Some(d) => d in st.blobs && st.fs.inodes[i].size == |d.preimage| <= MAX_FILE_BYTES
      case None => true
  }

  function DigestOf(b: Option<Bytes>): Option<Digest>
  {
    match b case Some(x) => Some(Digest(x)) case None => None
  }

  ghost predicate Recorded(st: Store, log: seq<Event>)
  {
    && (forall i <- st.fs.inodes ::
          && st.fs.inodes[i].contentHash == DigestOf(Fold(log, i))
          && st.fs.inodes[i].revision == WritesTo(log, i))
    && (forall k | 0 <= k < |log| :: log[k].ino <= st.fs.nextInode)
  }

  ghost predicate Charged(st: Store, log: seq<Event>)
  {
    st.charged == BytesWritten(log) && st.charged <= MAX_SESSION_BLOB_BYTES
  }

  ghost predicate StoreOk(st: Store, log: seq<Event>)
  {
    FsTree.Tree(st.fs) && BlobsOk(st) && Resolvable(st) && LegalLog(log) && Recorded(st, log) && Charged(st, log)
  }

  // ---- How the store may change --------------------------------------------------

  function BytesOf(st: Store, i: Ino): Bytes
  {
    if i in st.fs.inodes && st.fs.inodes[i].contentHash.Some? then st.fs.inodes[i].contentHash.value.preimage else []
  }

  /** A file a call may write to. */
  predicate IsFile(st: Store, ino: Ino) { ino in st.fs.inodes && IsReg(st.fs.inodes[ino].mode) }

  /** A key that a write to `ino` watches has changed. */
  predicate Disturbed(st: Store, st': Store, ino: Ino)
  {
    Ver(st.inodeVer, ino) != Ver(st'.inodeVer, ino) || st.allocVer != st'.allocVer
  }

  /** What no step undoes. */
  ghost predicate Grows(st: Store, st': Store)
  {
    && (forall d <- st.blobs :: d in st'.blobs)
    && st.fs.nextInode <= st'.fs.nextInode
    && (forall i: Ino | i <= st.fs.nextInode && i !in st.fs.inodes :: i !in st'.fs.inodes)
    && (forall i: Ino :: Ver(st.inodeVer, i) <= Ver(st'.inodeVer, i))
    && (forall i: Ino | Ver(st.inodeVer, i) == Ver(st'.inodeVer, i) ::
          (i in st.fs.inodes <==> i in st'.fs.inodes) && MetaOr(st.fs.inodes, i) == MetaOr(st'.fs.inodes, i))
    && st.allocVer <= st'.allocVer && (st.allocVer == st'.allocVer ==> st.charged == st'.charged)
    && (forall i <- st.fs.inodes | i in st'.fs.inodes ::
          && (st.fs.inodes[i].contentHash.Some? ==> st'.fs.inodes[i].contentHash.Some?)
          && st'.fs.inodes[i].manifestClass == st.fs.inodes[i].manifestClass)
  }

  lemma LeaseStepGrows(st: Store, st': Store)
    requires st' == st.(leases := st'.leases, leaseVer := st'.leaseVer)
    ensures Grows(st, st')
  {
  }

  /** One inode's content fields change, its key and the counter become newer. */
  lemma CommitGrows(st: Store, st': Store, ino: Ino)
    requires ino in st.fs.inodes
    requires st'.fs.nextInode == st.fs.nextInode && st'.fs.dirs == st.fs.dirs
    requires st'.fs.inodes.Keys == st.fs.inodes.Keys
    requires forall i <- st.fs.inodes | i != ino :: st'.fs.inodes[i] == st.fs.inodes[i]
    requires st'.fs.inodes[ino].contentHash.Some?
    requires st'.fs.inodes[ino].manifestClass == st.fs.inodes[ino].manifestClass
    requires forall d <- st.blobs :: d in st'.blobs
    requires st'.inodeVer == Bump(st.inodeVer, ino)
    requires st'.allocVer > st.allocVer || (st'.allocVer == st.allocVer && st'.charged == st.charged)
    ensures Grows(st, st')
  {
  }

  lemma WriteGrows(st: Store, ino: Ino, content: Bytes)
    requires ino in st.fs.inodes
    ensures Grows(st, CommitWrite(st, ino, content))
  {
    CommitGrows(st, CommitWrite(st, ino, content), ino);
  }

  lemma InstallGrows(st: Store, ino: Ino, content: Bytes)
    requires ino in st.fs.inodes
    ensures Grows(st, InstallGenerated(st, ino, content))
  {
    CommitGrows(st, InstallGenerated(st, ino, content), ino);
  }

  // ---- Commits keep the store in order -------------------------------------------------

  ghost predicate OnlyContentChanged(fs: Fs, fs': Fs, ino: Ino)
  {
    && ino in fs.inodes
    && fs' == fs.(inodes := fs'.inodes) && fs'.inodes.Keys == fs.inodes.Keys
    && (forall i <- fs.inodes | i != ino :: fs'.inodes[i] == fs.inodes[i])
    && fs'.inodes[ino].mode == fs.inodes[ino].mode && fs'.inodes[ino].nlink == fs.inodes[ino].nlink
  }

  lemma ContentKeepsTree(fs: Fs, fs': Fs, ino: Ino)
    requires FsTree.Tree(fs) && OnlyContentChanged(fs, fs', ino)
    ensures FsTree.Tree(fs')
  {
    hide FsTree.TreeOf, FileType;
    var par :| FsTree.TreeOf(fs, par);
    assert FsTree.SameShape(fs, fs');
    FsTree.SameShapeKeepsTree(fs, par, fs');
  }

  lemma WriteKeepsStore(st: Store, log: seq<Event>, c: CallId, ino: Ino, m: Mutation, content: Bytes)
    requires StoreOk(st, log) && ino in st.fs.inodes
    requires !m.Negative() && content == Mutated(m, BytesOf(st, ino)) && |content| <= MAX_FILE_BYTES
    requires st.charged + |content| <= MAX_SESSION_BLOB_BYTES
    ensures StoreOk(CommitWrite(st, ino, content), log + [Wrote(c, ino, m, content)])
  {
    hide FsTree.Tree, Mutated;
    var st' := CommitWrite(st, ino, content);
    var e := Wrote(c, ino, m, content);
    var log' := log + [e];
    AppendEvent(log, e);
    ContentKeepsTree(st.fs, st'.fs, ino);
    assert Some(content) == Fold(log', ino);
    LiveInRange(st.fs, ino);
    assert LegalLog(log');
    assert Recorded(st', log') by {
      forall i <- st'.fs.inodes
        ensures st'.fs.inodes[i].contentHash == DigestOf(Fold(log', i))
        ensures st'.fs.inodes[i].revision == WritesTo(log', i)
      {}
    }
  }

  lemma LiveInRange(fs: Fs, ino: Ino)
    requires FsTree.Tree(fs) && ino in fs.inodes
    ensures 1 <= ino <= fs.nextInode
  {
    hide FileType, FsTree.DirsMatch, FsTree.ParentsOk, FsTree.EntriesOk, FsTree.DotsOk, FsTree.LinksOk;
    var par :| FsTree.TreeOf(fs, par);
    assert FsTree.Numbered(fs);
  }

  lemma InstallKeepsStore(st: Store, log: seq<Event>, c: CallId, ino: Ino, content: Bytes)
    requires StoreOk(st, log) && ino in st.fs.inodes && st.fs.inodes[ino].contentHash.None?
    requires |content| <= MAX_FILE_BYTES
    ensures StoreOk(InstallGenerated(st, ino, content), log + [Installed(c, ino, content)])
  {
    hide FsTree.Tree, Mutated;
    var st' := InstallGenerated(st, ino, content);
    var e := Installed(c, ino, content);
    var log' := log + [e];
    AppendEvent(log, e);
    ContentKeepsTree(st.fs, st'.fs, ino);
    NoBytesNoEvents(log, ino);
    LiveInRange(st.fs, ino);
    assert LegalLog(log');
    assert Recorded(st', log') by {
      forall i <- st'.fs.inodes
        ensures st'.fs.inodes[i].contentHash == DigestOf(Fold(log', i))
        ensures st'.fs.inodes[i].revision == WritesTo(log', i)
      {}
    }
  }

  // ---- Namespace scripts and content -------------------------------------------------

  /** A script leaves the content fields of every surviving inode alone, and a new inode
      starts without content. */
  ghost predicate ContentKept(fs: Fs, fs': Fs)
  {
    && fs.nextInode <= fs'.nextInode
    && (forall i <- fs'.inodes ::
          var m := MetaOr(fs.inodes, i);
          && fs'.inodes[i].contentHash == m.contentHash
          && fs'.inodes[i].revision == m.revision
          && fs'.inodes[i].manifestClass == m.manifestClass
          && (m.contentHash.Some? ==> fs'.inodes[i].size == m.size)
          && (i !in fs.inodes ==> fs.nextInode < i))
  }

  lemma ScriptKeepsContent(fs: Fs, call: FsTree.Call)
    requires FsTree.Tree(fs) && IsScript(call)
    ensures FsTree.Tree(FsTree.Apply(fs, call)) && ContentKept(fs, FsTree.Apply(fs, call))
  {
    hide FsTree.TreeOf, FileType, Dot, BadName, DoCreate, DoMkdir, DoUnlink, DoRmdir;
    var par :| FsTree.TreeOf(fs, par);
    var par' := FsTree.ApplyKeepsTree(fs, par, call);
    match call
    case Create(p, n, m) => CreateContent(fs, par, p, n, m);
    case Mkdir(p, n, m) => MkdirContent(fs, par, p, n, m);
    case Unlink(p, n) => UnlinkContent(fs, par, p, n);
    case Rmdir(p, n) => RmdirContent(fs, par, p, n);
    case Chmod(_, _) =>
  }

  lemma FreshIsUnused(fs: Fs, par: FsTree.Parents)
    requires FsTree.TreeOf(fs, par)
    ensures fs.nextInode + 1 !in fs.inodes
  {
    hide FileType, FsTree.DirsMatch, FsTree.ParentsOk, FsTree.EntriesOk, FsTree.DotsOk, FsTree.LinksOk;
  }

  lemma CreateContent(fs: Fs, par: FsTree.Parents, p: Ino, n: string, m: nat)
    requires FsTree.TreeOf(fs, par)
    ensures ContentKept(fs, DoCreate(fs, p, n, m).0)
  {
    hide FsTree.TreeOf, FileType, Dot, BadName;
    FreshIsUnused(fs, par);
  }

  lemma MkdirContent(fs: Fs, par: FsTree.Parents, p: Ino, n: string, m: nat)
    requires FsTree.TreeOf(fs, par)
    ensures ContentKept(fs, DoMkdir(fs, p, n, m).0)
  {
    hide FsTree.TreeOf, IsDir, Dot, BadName;
    FreshIsUnused(fs, par);
    FsTree.AbsentIsNoDir();
  }

  lemma UnlinkContent(fs: Fs, par: FsTree.Parents, p: Ino, n: string)
    requires FsTree.TreeOf(fs, par)
    ensures ContentKept(fs, DoUnlink(fs, p, n).0)
  {
    hide FsTree.TreeOf, FileType, Dot, BadName, IsDir;
    if DoUnlink(fs, p, n).1.Inode? { UnlinkDeletes(fs, par, p, n); }
  }

  lemma UnlinkDeletes(fs: Fs, par: FsTree.Parents, p: Ino, n: string)
    requires FsTree.TreeOf(fs, par) && DoUnlink(fs, p, n).1.Inode?
    ensures DoUnlink(fs, p, n).1.ino in fs.inodes && DoUnlink(fs, p, n).1.ino !in DoUnlink(fs, p, n).0.inodes
  {
    hide FileType, Dot, BadName, FsTree.DirsMatch, FsTree.ParentsOk, FsTree.EntriesOk, FsTree.DotsOk, FsTree.LinksOk, DoUnlink;
    FsTree.UnlinkRemoves(fs, par, p, n);
  }

  lemma RmdirContent(fs: Fs, par: FsTree.Parents, p: Ino, n: string)
    requires FsTree.TreeOf(fs, par)
    ensures ContentKept(fs, DoRmdir(fs, p, n).0)
  {
    hide FsTree.TreeOf, Dot, BadName, IsDir;
    if DoRmdir(fs, p, n).1.Inode? { RmdirParent(fs, par, p, n); FsTree.AbsentIsNoDir(); }
  }

  lemma RmdirParent(fs: Fs, par: FsTree.Parents, p: Ino, n: string)
    requires FsTree.TreeOf(fs, par) && DoRmdir(fs, p, n).1.Inode?
    ensures p in fs.inodes && p != DoRmdir(fs, p, n).1.ino
  {
    hide FileType, Dot, BadName, FsTree.DirsMatch, FsTree.ParentsOk, FsTree.EntriesOk, FsTree.DotsOk, FsTree.LinksOk, DoRmdir;
    FsTree.RmdirRemoves(fs, par, p, n);
  }

  lemma ScriptGrows(st: Store, call: FsTree.Call, versions: map<Ino, nat>)
    requires FsTree.Tree(st.fs) && IsScript(call)
    requires Touched(st.fs, FsTree.Apply(st.fs, call), st.inodeVer, versions)
    ensures Grows(st, st.(fs := FsTree.Apply(st.fs, call), inodeVer := versions))
  {
    hide FsTree.Tree, FsTree.Apply;
    ScriptKeepsContent(st.fs, call);
  }

  lemma ScriptKeepsStore(st: Store, log: seq<Event>, call: FsTree.Call, versions: map<Ino, nat>)
    requires StoreOk(st, log) && IsScript(call)
    ensures StoreOk(st.(fs := FsTree.Apply(st.fs, call), inodeVer := versions), log)
  {
    hide FsTree.Tree, FsTree.Apply;
    ScriptKeepsContent(st.fs, call);
    var st' := st.(fs := FsTree.Apply(st.fs, call), inodeVer := versions);
    forall i <- st'.fs.inodes
      ensures st'.fs.inodes[i].contentHash == DigestOf(Fold(log, i))
      ensures st'.fs.inodes[i].revision == WritesTo(log, i)
    {
      if i !in st.fs.inodes { NoEventsNoBytes(log, i); }
    }
  }
}
