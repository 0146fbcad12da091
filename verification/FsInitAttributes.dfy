/** What a finished initialisation has written into the record of every manifest entry. */
module FsInitAttributes {
  import opened Wrappers
  import opened Inodes
  import opened SessionFs
  import opened FsTree
  import opened FsRefinement
  import opened FsRecords
  import opened FsInit
  import opened FsInitComplete

  // ---- The values ---------------------------------------------------------------------------

  /** At or below /home/<user>. */
  predicate InHome(path: Path, user: string) { |path| >= 2 && path[0] == "home" && path[1] == user }

  /** Owner, group and mode as the entry says, or else as its place in the tree does. */
  predicate Owned(e: ManifestEntry, user: string, m: Meta)
  {
    && m.uid == (if e.uid.Some? then e.uid.value else if InHome(e.path, user) then 1000 else 0)
    && m.gid == (if e.gid.Some? then e.gid.value else if InHome(e.path, user) then 1000 else 0)
    && m.mode == (if e.dir then 0x4000 else 0x8000)
               + (if e.perm.Some? then e.perm.value
                  else if e.path == ["tmp"] then 1023                                         // 01777
                  else if e.path == ["root"] || e.path == ["home", user, ".ssh"] then 448     // 0700
                  else if e.dir then 493                                                      // 0755
                  else 420)                                                                   // 0644
  }

  /** A file waits for content exactly in the two generated classes. */
  predicate Stated(e: ManifestEntry, m: Meta)
  {
    m.contentState == Some(if e.cls == "ai_backed" || e.cls == "deterministic" then ContentState.Missing else ContentState.Static)
  }

  predicate Classed(e: ManifestEntry, m: Meta)
  {
    Stated(e, m) && m.manifestClass == Some(e.cls)
  }

  lemma OwnedByAttributes(profile: Profile, e: ManifestEntry, m: Meta)
    ensures Owned(e, profile.user, m.(uid := if e.uid.Some? then e.uid.value else profile.Owner(e),
                                      gid := if e.gid.Some? then e.gid.value else profile.Owner(e),
                                      mode := profile.ModeFor(e)))
  {
    var home := ["home", profile.user];
    if |e.path| >= 2 { assert home <= e.path <==> e.path[0] == home[0] && e.path[1] == home[1]; }
    assert home + [".ssh"] == ["home", profile.user, ".ssh"];
  }

  // ---- Progress --------------------------------------------------------------------------------

  /** No earlier entry has the path of entry `k`: the build creates it. */
  predicate First(profile: Profile, k: nat)
    requires k < |profile.entries|
  {
    forall j | 0 <= j < k :: profile.entries[j].path != profile.entries[k].path
  }

  /** No entry after `k`, of the first `n`, has its path: the last one's attributes stay. */
  predicate Latest(profile: Profile, k: nat, n: nat)
    requires k < n <= |profile.entries|
  {
    forall j | k < j < n :: profile.entries[j].path != profile.entries[k].path
  }

  /** The record at a path of the view. */
  ghost predicate Has(fs: Fs, p: Path) { p in View(fs) && View(fs)[p].ino in fs.inodes }

  ghost function At(fs: Fs, p: Path): Meta
    requires Has(fs, p)
  {
    fs.inodes[View(fs)[p].ino]
  }

  ghost predicate EntryDone(profile: Profile, fs: Fs, k: nat, n: nat)
    requires k < n <= |profile.entries|
  {
    var e := profile.entries[k];
    e.path != [] ==>
      && Has(fs, e.path)
      && (Latest(profile, k, n) ==> Owned(e, profile.user, At(fs, e.path)))
      && (First(profile, k) && !e.dir ==> Classed(e, At(fs, e.path)))
  }

  /** The first `n` entries are done. */
  ghost predicate AllDone(profile: Profile, fs: Fs, n: nat)
    requires n <= |profile.entries|
  {
    forall k | 0 <= k < n :: EntryDone(profile, fs, k, n)
  }

  /** Every path of the view is one of the first `n` entries'. */
  ghost predicate OnlyMade(profile: Profile, fs: Fs, n: nat)
    requires n <= |profile.entries|
  {
    forall p <- View(fs) | p != [] :: MadeBy(profile, n, p)
  }

  predicate MadeBy(profile: Profile, n: nat, p: Path)
    requires n <= |profile.entries|
  {
    exists k | 0 <= k < n :: profile.entries[k].path == p
  }

  /** As the creating script left it: 0755 or 0644, of user and group 0. */
  predicate Bare(e: ManifestEntry, m: Meta)
  {
    m.mode == (if e.dir then 0x4000 + 493 else 0x8000 + 420) && m.uid == 0 && m.gid == 0
  }

  /** Entry `k` is being filled in: `set` says which of state and class are written. */
  ghost predicate Filling(profile: Profile, fs: Fs, k: nat, ino: Ino, state: bool, cls: bool)
  {
    && k < |profile.entries| && AllDone(profile, fs, k) && OnlyMade(profile, fs, k + 1)
    && var e := profile.entries[k];
       && e.path != [] && Has(fs, e.path) && View(fs)[e.path].ino == ino
       && (First(profile, k) && !e.dir ==>
             && (if state then Stated(e, At(fs, e.path)) else At(fs, e.path).contentState.None?)
             && (if cls then At(fs, e.path).manifestClass == Some(e.cls) else At(fs, e.path).manifestClass.None?))
       && (First(profile, k) ==> Bare(e, At(fs, e.path)))
  }

  ghost predicate Recorded(profile: Profile, s: Init)
  {
    match s.pc
    case Make(k) => k <= |profile.entries| && AllDone(profile, s.fs, k) && OnlyMade(profile, s.fs, k)
    case StateField(k, ino) => Filling(profile, s.fs, k, ino, false, false)
    case ClassField(k, ino) => Filling(profile, s.fs, k, ino, true, false)
    case Attributes(k, ino) => Filling(profile, s.fs, k, ino, true, true)
    case Finish => AllDone(profile, s.fs, |profile.entries|) && OnlyMade(profile, s.fs, |profile.entries|)
    case Done => AllDone(profile, s.fs, |profile.entries|) && OnlyMade(profile, s.fs, |profile.entries|)
    case _ => true
  }

  // ---- Frames -----------------------------------------------------------------------------------

  predicate SameRecord(m: Meta, m': Meta)
  {
    && m'.mode == m.mode && m'.uid == m.uid && m'.gid == m.gid
    && m'.contentState == m.contentState && m'.manifestClass == m.manifestClass
  }

  /** The path leads to the same inode with the same record. */
  ghost predicate Untouched(fs: Fs, fs': Fs, p: Path)
  {
    Has(fs, p) && Has(fs', p) && View(fs')[p].ino == View(fs)[p].ino && SameRecord(At(fs, p), At(fs', p))
  }

  lemma UntouchedIsDone(profile: Profile, fs: Fs, fs': Fs, k: nat, n: nat)
    requires k < n <= |profile.entries| && EntryDone(profile, fs, k, n)
    requires profile.entries[k].path != [] ==> Untouched(fs, fs', profile.entries[k].path)
    ensures EntryDone(profile, fs', k, n)
  {
    hide View, InHome;
  }

  lemma InjectivePaths(fs: Fs, p: Path, q: Path)
    requires Tree(fs) && p in View(fs) && q in View(fs) && View(fs)[p].ino == View(fs)[q].ino
    ensures p == q
  {
    hide TreeOf;
    var par :| TreeOf(fs, par);
    ParentsClosed(fs, par);
    ResolvedPathIsUnique(fs, par, p, View(fs)[p].ino);
    ResolvedPathIsUnique(fs, par, q, View(fs)[q].ino);
  }

  lemma ViewIsLive(fs: Fs, p: Path)
    requires Tree(fs) && p in View(fs)
    ensures Has(fs, p)
  {
    hide TreeOf;
    var par :| TreeOf(fs, par);
    ParentsClosed(fs, par);
    ResolvedPathIsUnique(fs, par, p, View(fs)[p].ino);
  }

  // ---- Creating an entry -----------------------------------------------------------------------

  /** Making an entry finds the inode its path already names, or adds a blank one under it;
      every other path keeps its inode and record. */
  ghost predicate FoundOrAdded(e: ManifestEntry, fs: Fs, fs': Fs, ino: Ino)
  {
    || (fs' == fs && e.path in View(fs) && View(fs)[e.path].ino == ino)
    || (e.path !in View(fs) && View(fs') == View(fs)[e.path := Node(ino, e.dir)] && Blank(fs, fs', ino)
        && Bare(e, fs'.inodes[ino]))
  }

  function CallFor(e: ManifestEntry, d: Ino): Call
    requires e.path != []
  {
    if e.dir then Call.Mkdir(d, Last(e.path), DIR_MODE) else Call.Create(d, Last(e.path), FILE_MODE)
  }

  lemma MadeCall(e: ManifestEntry, k: nat, fs: Fs, d: Ino)
    requires e.path != [] && ResolveFrom(fs, 1, FsRefinement.Init(e.path)) == Some(d)
    ensures var (fs', reply) := ReplyOf(fs, CallFor(e, d));
            var (made, pc) := MakeEntry(e, k, fs);
            && made == fs'
            && (HasIno(pc) ==>
                  && pc == (if e.dir then Attributes(k, pc.ino) else StateField(k, pc.ino))
                  && (reply.Inode? || reply.Exists?)
                  && (reply.Inode? ==> pc.ino == reply.ino == fs.nextInode + 1)
                  && (reply.Exists? ==> fs' == fs && ResolveFrom(fs, 1, e.path) == Some(pc.ino)))
            && (!HasIno(pc) ==> pc.Failed?)
  {
    hide ResolveFrom, BadName, IsDir;
  }

  lemma MapOpAdds(view: PathMap, parent: Path, name: string, op: Op, newIno: Ino, full: bool)
    requires op.OpCreate? || op.OpMkdir?
    ensures var (view', errno) := MapOp(view, parent, name, op, newIno, full);
            errno == OK ==> parent + [name] !in view && view' == view[parent + [name] := Node(newIno, op.OpMkdir?)]
  {
    hide BadName;
  }

  lemma OpOfCall(e: ManifestEntry, fs: Fs, d: Ino)
    requires e.path != [] && ResolveFrom(fs, 1, FsRefinement.Init(e.path)) == Some(d)
    ensures RunOp(fs, FsRefinement.Init(e.path), Last(e.path), if e.dir then OpMkdir(DIR_MODE) else OpCreate(FILE_MODE)) ==
            (ReplyOf(fs, CallFor(e, d)).0, ToErrno(ReplyOf(fs, CallFor(e, d)).1))
    ensures ReplyOf(fs, CallFor(e, d)).1.Inode? ==> ToErrno(ReplyOf(fs, CallFor(e, d)).1) == OK
  {
    hide ResolveFrom, DoCreate, DoMkdir;
  }

  lemma Typed(op: Op)
    requires op == OpMkdir(DIR_MODE) || op == OpCreate(FILE_MODE)
    ensures OpTyped(op)
  {
    ConstModes();
  }

  lemma InitAndLast(p: Path)
    requires p != []
    ensures FsRefinement.Init(p) + [Last(p)] == p
  {
  }

  lemma MadeOp(e: ManifestEntry, fs: Fs, d: Ino)
    requires Tree(fs) && e.path != [] && Normal(e.path) && ResolveFrom(fs, 1, FsRefinement.Init(e.path)) == Some(d)
    ensures var (fs', reply) := ReplyOf(fs, CallFor(e, d));
            reply.Inode? ==> e.path !in View(fs) && View(fs') == View(fs)[e.path := Node(fs.nextInode + 1, e.dir)]
  {
    hide *;
    var parent := FsRefinement.Init(e.path);
    var op := if e.dir then OpMkdir(DIR_MODE) else OpCreate(FILE_MODE);
    Typed(op);
    NormalInit(e.path);
    InitAndLast(e.path);
    OpOfCall(e, fs, d);
    OpRefines(fs, parent, Last(e.path), op);
    MapOpAdds(View(fs), parent, Last(e.path), op, fs.nextInode + 1, fs.nextInode >= 10000);
  }

  /** A new record is blank, and no other one changes but in its link count. */
  ghost predicate Blank(fs: Fs, fs': Fs, ino: Ino)
  {
    && ino !in fs.inodes && ino in fs'.inodes
    && (forall i <- fs.inodes :: i in fs'.inodes && SameRecord(fs.inodes[i], fs'.inodes[i]))
    && fs'.inodes[ino].contentState.None? && fs'.inodes[ino].manifestClass.None?
  }

  lemma MadeBlank(e: ManifestEntry, fs: Fs, d: Ino)
    requires Tree(fs) && e.path != []
    ensures var (fs', reply) := ReplyOf(fs, CallFor(e, d)); reply.Inode? ==> Blank(fs, fs', reply.ino) && Bare(e, fs'.inodes[reply.ino])
  {
    hide Tree, ReplyOf;
    RecordsAfter(fs, CallFor(e, d));
  }

  lemma MakeFindsOrAdds(e: ManifestEntry, k: nat, fs: Fs)
    requires Tree(fs) && e.path != [] && Normal(e.path)
    ensures var (fs', pc) := MakeEntry(e, k, fs);
            && (HasIno(pc) ==> FoundOrAdded(e, fs, fs', pc.ino) && pc == (if e.dir then Attributes(k, pc.ino) else StateField(k, pc.ino)))
            && (!HasIno(pc) ==> pc.Failed?)
  {
    var d := ResolveFrom(fs, 1, FsRefinement.Init(e.path));
    if d.Some? {
      hide Tree, View, MakeEntry, ReplyOf, CallFor, ResolveFrom, Normal, SameRecord;
      MadeCall(e, k, fs, d.value);
      MadeOp(e, fs, d.value);
      MadeBlank(e, fs, d.value);
      if ResolveFrom(fs, 1, e.path).Some? { FoundInView(fs, e.path); }
    }
  }

  lemma FoundInView(fs: Fs, p: Path)
    requires Normal(p) && ResolveFrom(fs, 1, p).Some?
    ensures p in View(fs) && Some(View(fs)[p].ino) == ResolveFrom(fs, 1, p)
  {
  }

  lemma MakeStep(profile: Profile, k: nat, fs: Fs)
    requires WellFormed(profile) && Tree(fs) && k < |profile.entries| && profile.entries[k].path != []
    requires AllDone(profile, fs, k) && OnlyMade(profile, fs, k)
    requires Tree(MakeEntry(profile.entries[k], k, fs).0)
    ensures var (fs', pc) := MakeEntry(profile.entries[k], k, fs);
            forall started: bool :: Recorded(profile, Init(fs', started, pc))
  {
    var e := profile.entries[k];
    assert Normal(e.path);
    hide Tree, View, MakeEntry, WellFormed, AllDone, OnlyMade, Filling, FoundOrAdded;
    MakeFindsOrAdds(e, k, fs);
    var (fs', pc) := MakeEntry(e, k, fs);
    if HasIno(pc) {
      MakeKeepsDone(profile, k, fs, fs', pc.ino);
      MakeKeepsOnly(profile, k, fs, fs', pc.ino);
      MakeFills(profile, k, fs, fs', pc.ino);
    }
  }

  lemma MakeKeepsDone(profile: Profile, k: nat, fs: Fs, fs': Fs, ino: Ino)
    requires k < |profile.entries| && AllDone(profile, fs, k) && Tree(fs) && Tree(fs')
    requires FoundOrAdded(profile.entries[k], fs, fs', ino)
    ensures AllDone(profile, fs', k)
  {
    hide Tree, View, First, Latest, Owned, Classed;
    forall j | 0 <= j < k ensures EntryDone(profile, fs', j, k) {
      var p := profile.entries[j].path;
      assert EntryDone(profile, fs, j, k);
      if p != [] && fs' != fs {
        ViewIsLive(fs', p);
        assert View(fs')[p] == View(fs)[p];
      }
      UntouchedIsDone(profile, fs, fs', j, k);
    }
  }

  lemma MakeKeepsOnly(profile: Profile, k: nat, fs: Fs, fs': Fs, ino: Ino)
    requires k < |profile.entries| && OnlyMade(profile, fs, k) && FoundOrAdded(profile.entries[k], fs, fs', ino)
    ensures OnlyMade(profile, fs', k + 1)
  {
    hide View;
    forall p <- View(fs') | p != [] ensures MadeBy(profile, k + 1, p) {
      if p in View(fs) {
        assert MadeBy(profile, k, p);
      } else {
        assert profile.entries[k].path == p;
      }
    }
  }

  lemma MakeFills(profile: Profile, k: nat, fs: Fs, fs': Fs, ino: Ino)
    requires k < |profile.entries| && profile.entries[k].path != [] && Tree(fs') && OnlyMade(profile, fs, k)
    requires AllDone(profile, fs', k) && OnlyMade(profile, fs', k + 1) && FoundOrAdded(profile.entries[k], fs, fs', ino)
    ensures var e := profile.entries[k];
            Filling(profile, fs', k, ino, e.dir, e.dir)
  {
    hide Tree, View, EntryDone, OnlyMade;
    var e := profile.entries[k];
    ViewIsLive(fs', e.path);
    FirstIsNew(profile, fs, k);
  }

  lemma FirstIsNew(profile: Profile, fs: Fs, k: nat)
    requires k < |profile.entries| && profile.entries[k].path != [] && OnlyMade(profile, fs, k)
    ensures First(profile, k) ==> profile.entries[k].path !in View(fs)
  {
    hide View;
    if profile.entries[k].path in View(fs) { assert MadeBy(profile, k, profile.entries[k].path); }
  }

  // ---- Filling it in -----------------------------------------------------------------------------

  /** One record of a tree changes, but not in type or links: the view stays, and so do all
      other records. */
  lemma SetKeepsOthers(fs: Fs, ino: Ino, m: Meta, p: Path)
    requires Tree(fs) && Has(fs, p) && View(fs)[p].ino == ino && SameShape(fs, SetMeta(fs, ino, m))
    ensures var fs' := SetMeta(fs, ino, m);
            && View(fs') == View(fs) && Has(fs', p) && At(fs', p) == m
            && forall q | Has(fs, q) && q != p :: Untouched(fs, fs', q)
  {
    hide Tree, View, SameShape;
    var fs' := SetMeta(fs, ino, m);
    FieldsKeepView(fs, fs');
    forall q | Has(fs, q) && q != p ensures Untouched(fs, fs', q) {
      if View(fs)[q].ino == ino { InjectivePaths(fs, p, q); }
    }
  }

  lemma SetKeepsDone(profile: Profile, fs: Fs, ino: Ino, m: Meta, k: nat)
    requires k < |profile.entries| && profile.entries[k].path != [] && AllDone(profile, fs, k) && Tree(fs)
    requires Has(fs, profile.entries[k].path) && View(fs)[profile.entries[k].path].ino == ino
    requires SameShape(fs, SetMeta(fs, ino, m))
    requires !First(profile, k) ==>
               && m.contentState == fs.inodes[ino].contentState && m.manifestClass == fs.inodes[ino].manifestClass
    ensures forall j | 0 <= j < k && profile.entries[j].path != profile.entries[k].path :: EntryDone(profile, SetMeta(fs, ino, m), j, k)
    ensures SameRecord(fs.inodes[ino], m) ==> AllDone(profile, SetMeta(fs, ino, m), k)
  {
    var p := profile.entries[k].path;
    var fs' := SetMeta(fs, ino, m);
    hide Tree, View, SameShape, First, Latest, Owned, Classed;
    SetKeepsOthers(fs, ino, m, p);
    forall j | 0 <= j < k && (profile.entries[j].path != p || SameRecord(fs.inodes[ino], m)) ensures EntryDone(profile, fs', j, k) {
      assert EntryDone(profile, fs, j, k);
      UntouchedIsDone(profile, fs, fs', j, k);
    }
  }

  /** Setting state and class of a first entry touches no earlier entry, as none has its path. */
  lemma SetKeepsEarlier(profile: Profile, fs: Fs, ino: Ino, m: Meta, k: nat)
    requires k < |profile.entries| && profile.entries[k].path != [] && AllDone(profile, fs, k) && Tree(fs)
    requires Has(fs, profile.entries[k].path) && View(fs)[profile.entries[k].path].ino == ino
    requires SameShape(fs, SetMeta(fs, ino, m))
    requires First(profile, k) || SameRecord(fs.inodes[ino], m)
    ensures AllDone(profile, SetMeta(fs, ino, m), k) && View(SetMeta(fs, ino, m)) == View(fs)
  {
    var p := profile.entries[k].path;
    SetKeepsOthers(fs, ino, m, p);
    hide Tree, View, SameShape, Latest, Owned, Classed;
    SetKeepsDone(profile, fs, ino, m, k);
  }

  lemma KnownShape(fs: Fs, ino: Ino, m: Meta)
    requires ino in fs.inodes && m.nlink == fs.inodes[ino].nlink
    requires IsDir(m.mode) == IsDir(fs.inodes[ino].mode) && IsReg(m.mode) == IsReg(fs.inodes[ino].mode)
    ensures SameShape(fs, SetMeta(fs, ino, m))
  {
    hide FileType;
  }

  /** An entry that repeats an earlier path finds state and class set. */
  lemma RepeatIsSet(profile: Profile, fs: Fs, k: nat)
    requires WellFormed(profile) && k < |profile.entries| && AllDone(profile, fs, k) && !First(profile, k)
    requires profile.entries[k].path != [] && !profile.entries[k].dir
    ensures Has(fs, profile.entries[k].path)
    ensures At(fs, profile.entries[k].path).contentState.Some? && At(fs, profile.entries[k].path).manifestClass.Some?
  {
    hide View, Owned;
    var j := Earliest(profile, k);
    assert profile.entries[j] in profile.entries && profile.entries[k] in profile.entries;
    assert EntryDone(profile, fs, j, k);
  }

  lemma {:induction false} Earliest(profile: Profile, k: nat) returns (j: nat)
    requires k < |profile.entries| && !First(profile, k)
    ensures j < k && profile.entries[j].path == profile.entries[k].path && First(profile, j)
    decreases k
  {
    j :| 0 <= j < k && profile.entries[j].path == profile.entries[k].path;
    if !First(profile, j) { j := Earliest(profile, j); }
  }

  lemma SameView(profile: Profile, fs: Fs, fs': Fs, n: nat)
    requires n <= |profile.entries| && OnlyMade(profile, fs, n) && View(fs') == View(fs)
    ensures OnlyMade(profile, fs', n)
  {
    hide View;
  }

  /** A field is written where it was missing: an entry being filled in stays so. */
  lemma FieldKeepsFilling(profile: Profile, fs: Fs, k: nat, ino: Ino, m: Meta)
    requires k < |profile.entries| && profile.entries[k].path != [] && AllDone(profile, fs, k) && OnlyMade(profile, fs, k + 1)
    requires Tree(fs) && Has(fs, profile.entries[k].path) && View(fs)[profile.entries[k].path].ino == ino
    requires First(profile, k) || SameRecord(fs.inodes[ino], m)
    requires m.mode == fs.inodes[ino].mode && m.nlink == fs.inodes[ino].nlink
    ensures var fs' := SetMeta(fs, ino, m);
            && AllDone(profile, fs', k) && OnlyMade(profile, fs', k + 1)
            && Has(fs', profile.entries[k].path) && View(fs')[profile.entries[k].path].ino == ino
            && At(fs', profile.entries[k].path) == m
  {
    hide Tree, View, First, AllDone, OnlyMade, FileType, SameShape;
    KnownShape(fs, ino, m);
    SetKeepsOthers(fs, ino, m, profile.entries[k].path);
    SetKeepsEarlier(profile, fs, ino, m, k);
    SameView(profile, fs, SetMeta(fs, ino, m), k + 1);
  }

  lemma StateStep(profile: Profile, s: Init)
    requires WellFormed(profile) && Tree(s.fs) && s.pc.StateField? && s.pc.k < |profile.entries|
    requires Recorded(profile, s) && !profile.entries[s.pc.k].dir
    ensures Recorded(profile, Next(profile, s))
  {
    hide Tree, View, First, AllDone, OnlyMade, WellFormed;
    var StateField(k, ino) := s.pc;
    var e, m := profile.entries[k], s.fs.inodes[s.pc.ino];
    if !First(profile, k) { RepeatIsSet(profile, s.fs, k); }
    FieldKeepsFilling(profile, s.fs, k, ino, if m.contentState.Some? then m else m.(contentState := Some(InitialState(e))));
  }

  lemma ClassStep(profile: Profile, s: Init)
    requires WellFormed(profile) && Tree(s.fs) && s.pc.ClassField? && s.pc.k < |profile.entries|
    requires Recorded(profile, s) && !profile.entries[s.pc.k].dir
    ensures Recorded(profile, Next(profile, s))
  {
    hide Tree, View, First, AllDone, OnlyMade, WellFormed;
    var ClassField(k, ino) := s.pc;
    var e, m := profile.entries[k], s.fs.inodes[s.pc.ino];
    if !First(profile, k) { RepeatIsSet(profile, s.fs, k); }
    FieldKeepsFilling(profile, s.fs, k, ino, if m.manifestClass.Some? then m else m.(manifestClass := Some(e.cls)));
  }

  /** The attributes finish entry `k`; an earlier entry with its path is no longer the last. */
  lemma AttributesFinish(profile: Profile, fs: Fs, fs': Fs, k: nat)
    requires k < |profile.entries|
    requires forall j | 0 <= j < k && profile.entries[j].path != profile.entries[k].path :: EntryDone(profile, fs', j, k)
    requires AllDone(profile, fs, k)
    requires var p := profile.entries[k].path;
             && p != [] && Has(fs, p) && Has(fs', p)
             && At(fs', p).contentState == At(fs, p).contentState && At(fs', p).manifestClass == At(fs, p).manifestClass
             && Owned(profile.entries[k], profile.user, At(fs', p))
             && (First(profile, k) && !profile.entries[k].dir ==> Classed(profile.entries[k], At(fs', p)))
    ensures AllDone(profile, fs', k + 1)
  {
    hide View, Owned;
    var n := k + 1;
    forall j | 0 <= j < n ensures EntryDone(profile, fs', j, n) {
      if j < k && profile.entries[j].path == profile.entries[k].path {
        assert EntryDone(profile, fs, j, k) && !Latest(profile, j, n);
      } else if j < k {
        assert EntryDone(profile, fs', j, k);
      }
    }
  }

  lemma AttributesKeep(profile: Profile, fs: Fs, k: nat, ino: Ino, m: Meta)
    requires Filling(profile, fs, k, ino, true, true) && Tree(fs) && SameShape(fs, SetMeta(fs, ino, m))
    requires m.contentState == fs.inodes[ino].contentState && m.manifestClass == fs.inodes[ino].manifestClass
    requires Owned(profile.entries[k], profile.user, m)
    ensures AllDone(profile, SetMeta(fs, ino, m), k + 1) && OnlyMade(profile, SetMeta(fs, ino, m), k + 1)
  {
    var p, fs' := profile.entries[k].path, SetMeta(fs, ino, m);
    hide Tree, View, First, OnlyMade, AllDone, EntryDone, Owned, SameShape;
    SetKeepsOthers(fs, ino, m, p);
    SetKeepsDone(profile, fs, ino, m, k);
    AttributesFinish(profile, fs, fs', k);
    SameView(profile, fs, fs', k + 1);
  }

  /** The record an entry ends with. */
  function Final(profile: Profile, e: ManifestEntry, m: Meta): Meta
  {
    m.(uid := if e.uid.Some? then e.uid.value else profile.Owner(e),
       gid := if e.gid.Some? then e.gid.value else profile.Owner(e), mode := profile.ModeFor(e))
  }

  lemma FinalShape(profile: Profile, e: ManifestEntry, fs: Fs, ino: Ino)
    requires Tree(fs) && ino in fs.inodes && IsDir(fs.inodes[ino].mode) == e.dir
    ensures SameShape(fs, SetMeta(fs, ino, Final(profile, e, fs.inodes[ino])))
  {
    hide Tree, IsDir, IsReg, Profile.Owner, Profile.ModeFor, SameShape;
    ModeType(profile, e);
    TypedNodes(fs);
    KnownShape(fs, ino, Final(profile, e, fs.inodes[ino]));
  }

  lemma AttributesStep(profile: Profile, s: Init)
    requires Tree(s.fs) && s.pc.Attributes? && s.pc.k < |profile.entries| && Recorded(profile, s)
    requires s.pc.ino in s.fs.inodes && IsDir(s.fs.inodes[s.pc.ino].mode) == profile.entries[s.pc.k].dir
    ensures Recorded(profile, Next(profile, s))
  {
    hide Tree, AllDone, OnlyMade, IsDir, Owned, Filling, Profile.Owner, Profile.ModeFor, SameShape;
    var Attributes(k, ino) := s.pc;
    var e, m := profile.entries[k], s.fs.inodes[s.pc.ino];
    FinalShape(profile, e, s.fs, ino);
    OwnedByAttributes(profile, e, m);
    AttributesKeep(profile, s.fs, k, ino, Final(profile, e, m));
  }

  /** A manifest entry for the root is passed over. */
  lemma SkipRoot(profile: Profile, fs: Fs, k: nat)
    requires k < |profile.entries| && profile.entries[k].path == [] && AllDone(profile, fs, k) && OnlyMade(profile, fs, k)
    ensures AllDone(profile, fs, k + 1) && OnlyMade(profile, fs, k + 1)
  {
    hide View, Owned, Classed, First;
    var n := k + 1;
    forall j | 0 <= j < n ensures EntryDone(profile, fs, j, n) {
      if j < k { assert EntryDone(profile, fs, j, k); }
    }
    forall p <- View(fs) | p != [] ensures MadeBy(profile, k + 1, p) { assert MadeBy(profile, k, p); }
  }

  // ---- The run ------------------------------------------------------------------------------------

  lemma StepKeepsRecords(profile: Profile, s: Init)
    requires WellFormed(profile) && Growing(profile, s) && Working(s.pc) && Recorded(profile, s)
    requires Growing(profile, Next(profile, s)) && FileFields(profile, s)
    ensures Recorded(profile, Next(profile, s)) && FileFields(profile, Next(profile, s))
  {
    hide Tree, Listed, View, MakeEntry, AllDone, OnlyMade, Filling, Profile.Owner, Profile.ModeFor;
    match s.pc
    case Make(k) =>
      if k < |profile.entries| {
        if profile.entries[k].path == [] {
          SkipRoot(profile, s.fs, k);
        } else {
          MakeStep(profile, k, s.fs);
          MadeFields(profile, k, s.fs);
        }
      }
    case StateField(_, _) => StateStep(profile, s);
    case ClassField(_, _) => ClassStep(profile, s);
    case Attributes(_, _) => AttributesStep(profile, s);
    case _ =>
  }

  /** State and class are fields of files. */
  predicate FileFields(profile: Profile, s: Init)
  {
    s.pc.StateField? || s.pc.ClassField? ==> s.pc.k < |profile.entries| && !profile.entries[s.pc.k].dir
  }

  lemma MadeFields(profile: Profile, k: nat, fs: Fs)
    requires k < |profile.entries| && profile.entries[k].path != []
    ensures FileFields(profile, Init(MakeEntry(profile.entries[k], k, fs).0, false, MakeEntry(profile.entries[k], k, fs).1))
  {
    hide DoCreate, DoMkdir, ResolveFrom;
  }

  lemma {:induction false} CleanRunRecords(profile: Profile, n: nat)
    requires WellFormed(profile) && n >= 4
    ensures Recorded(profile, Clean(profile, n)) && FileFields(profile, Clean(profile, n))
    decreases n
  {
    hide Next, Growing, Recorded, FileFields, WellFormed;
    if n == 4 {
      SetupGivesRoot(profile);
      NothingMade(profile);
    } else {
      CleanRunRecords(profile, n - 1);
      CleanRunBuildsTree(profile, n - 1);
      CleanRunBuildsTree(profile, n);
      StepKeepsRecords(profile, Clean(profile, n - 1));
    }
  }

  lemma NothingMade(profile: Profile)
    requires Clean(profile, 4).fs == ROOT_FS && Clean(profile, 4).pc == Make(0)
    ensures Recorded(profile, Clean(profile, 4)) && FileFields(profile, Clean(profile, 4))
  {
    hide TreeOf, FileType;
    RootIsTree();
    forall p <- View(ROOT_FS) ensures p == [] {
      if p != [] {
        ViewIsPrefixClosed(ROOT_FS, p);
        ResolveLast(ROOT_FS, p);
        OnlyRootDots(ResolveFrom(ROOT_FS, 1, FsRefinement.Init(p)).value, Last(p));
      }
    }
  }

  // ---- The finished build ---------------------------------------------------------------------------

  /** The path leads to a live inode, and this is its record. */
  ghost predicate RecordAt(fs: Fs, p: Path, m: Meta)
  {
    && ResolveFrom(fs, 1, p).Some?
    && ResolveFrom(fs, 1, p).value in fs.inodes
    && fs.inodes[ResolveFrom(fs, 1, p).value] == m
  }

  lemma HasIsRecordAt(fs: Fs, p: Path)
    requires Has(fs, p)
    ensures RecordAt(fs, p, At(fs, p))
  {
    InViewIsNormal(fs, p);
  }

  /** However often a build of a well-formed manifest was interrupted, once it completes
      every entry's path leads to a live inode. Its owner, group and mode are those of the
      last entry with that path; the state and class of a file are those of the first. */
  lemma FinishedAttributes(profile: Profile, crash: seq<bool>, k: nat)
    requires WellFormed(profile) && Interrupted(profile, crash).pc.Done?
    requires k < |profile.entries| && profile.entries[k].path != []
    ensures var e, fs := profile.entries[k], Interrupted(profile, crash).fs;
            exists m: Meta ::
              && RecordAt(fs, e.path, m)
              && ((forall j | k < j < |profile.entries| :: profile.entries[j].path != e.path) ==>
                    && m.uid == (if e.uid.Some? then e.uid.value
                                 else if ["home", profile.user] <= e.path then 1000 else 0)
                    && m.gid == (if e.gid.Some? then e.gid.value
                                 else if ["home", profile.user] <= e.path then 1000 else 0)
                    && m.mode == (if e.dir then 0x4000 else 0x8000)
                               + (if e.perm.Some? then e.perm.value
                                  else if e.path == ["tmp"] then 1023
                                  else if e.path == ["root"] || e.path == ["home", profile.user, ".ssh"] then 448
                                  else if e.dir then 493
                                  else 420))
              && (!e.dir && (forall j | 0 <= j < k :: profile.entries[j].path != e.path) ==>
                    && m.manifestClass == Some(e.cls)
                    && m.contentState == Some(if e.cls == "ai_backed" || e.cls == "deterministic"
                                              then ContentState.Missing else ContentState.Static))
  {
    var e, fs := profile.entries[k], Interrupted(profile, crash).fs;
    HasFinal(profile, crash, k);
    HasIsRecordAt(fs, e.path);
    var m := At(fs, e.path);
    hide View, Has, Interrupted;
    HomePrefix(e.path, profile.user);
  }

  lemma HomePrefix(p: Path, user: string)
    ensures ["home", user] <= p <==> InHome(p, user)
  {
    var home := ["home", user];
    if |p| >= 2 { assert home <= p <==> p[0] == home[0] && p[1] == home[1]; }
  }

  lemma HasFinal(profile: Profile, crash: seq<bool>, k: nat)
    requires WellFormed(profile) && Interrupted(profile, crash).pc.Done?
    requires k < |profile.entries| && profile.entries[k].path != []
    ensures EntryDone(profile, Interrupted(profile, crash).fs, k, |profile.entries|)
    ensures Has(Interrupted(profile, crash).fs, profile.entries[k].path)
  {
    hide Next, Clean, Interrupted, Owned, Classed, WellFormed, View;
    var n := CompletesAsClean(profile, crash);
    EarlyIsNotDone(profile, n);
    CleanRunRecords(profile, n);
  }

  /** The root of a finished build is a directory 0755 of user and group 0, whatever the
      manifest says of it. */
  lemma FinishedRoot(profile: Profile, crash: seq<bool>)
    requires Interrupted(profile, crash).pc.Done?
    ensures exists m: Meta :: RecordAt(Interrupted(profile, crash).fs, [], m) && m.mode == 0x4000 + 493 && m.uid == 0 && m.gid == 0
  {
    hide Next, Clean, Interrupted;
    var n := CompletesAsClean(profile, crash);
    CleanIsSane(profile, n);
    var fs := Clean(profile, n).fs;
    assert 1 in fs.inodes;
    assert RecordAt(fs, [], fs.inodes[1]);
  }
}
