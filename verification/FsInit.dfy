/** Building the baseline namespace from the manifest, one Redis command a step. A crash
    (or an exception) may come between any two commands; the next attempt starts over.
    One initialiser runs at a time (the `fs:initialize` lock). */
module FsInit {
  import opened Wrappers
  import opened Inodes
  import opened SessionFs
  import opened FsTree
  import opened FsRefinement

  type Perm = m: nat | m < 0x1000

  datatype ManifestEntry = ManifestEntry(
    path: Path,
    dir: bool,
    cls: string,
    uid: Option<nat>,
    gid: Option<nat>,
    perm: Option<Perm>)

  /** The manifest as sorted by depth, and the primary user's name. */
  datatype Profile = Profile(entries: seq<ManifestEntry>, user: string)
  {
    function Home(): Path { ["home", user] }

    function Owner(e: ManifestEntry): nat
    {
      if Home() <= e.path then 1000 else 0
    }

    function DefaultPerm(e: ManifestEntry): Perm
    {
      if e.path == ["tmp"] then 0x3ff              // 01777
      else if e.path == ["root"] || e.path == Home() + [".ssh"] then 0x1c0   // 0700
      else if e.dir then 0x1ed                     // 0755
      else 0x1a4                                   // 0644
    }

    function ModeFor(e: ManifestEntry): nat
    {
      (if e.dir then S_IFDIR else S_IFREG) + (if e.perm.Some? then e.perm.value else DefaultPerm(e))
    }
  }

  const DIR_MODE: nat := 16877
  const FILE_MODE: nat := 33188

  /** Where the initialiser is: the next Redis command that changes something. */
  datatype Pc =
    | Start
    | SetCounter
    | RootHash
    | RootDir
    | Make(k: nat)
    | StateField(k: nat, ino: Ino)
    | ClassField(k: nat, ino: Ino)
    | Attributes(k: nat, ino: Ino)
    | Finish
    | Done
    | Failed(k: nat)

  datatype Init = Init(fs: Fs, initialized: bool, pc: Pc)

  const EMPTY := Init(Fs(0, map[], map[]), false, Start)

  function SetMeta(fs: Fs, i: Ino, m: Meta): Fs
  {
    fs.(inodes := fs.inodes[i := m])
  }

  function InitialState(e: ManifestEntry): ContentState
  {
    if e.cls == "ai_backed" || e.cls == "deterministic" then Missing else Static
  }

  function MakeEntry(e: ManifestEntry, k: nat, fs: Fs): (Fs, Pc)
    requires e.path != []
  {
    var d := ResolveFrom(fs, 1, FsRefinement.Init(e.path));
    if d.None? then (fs, Failed(k))
    else
      var (fs', reply) := if e.dir then DoMkdir(fs, d.value, Last(e.path), DIR_MODE)
                          else DoCreate(fs, d.value, Last(e.path), FILE_MODE);
      var ino := match reply
        case Inode(i) => Some(i)
        case Exists => ResolveFrom(fs', 1, e.path)
        case _ => None;
      if ino.None? then (fs', Failed(k))
      else (fs', if e.dir then Attributes(k, ino.value) else StateField(k, ino.value))
  }

  /** One command of `_initialize_filesystem`. */
  function Next(profile: Profile, s: Init): Init
  {
    match s.pc
    case Start => s.(pc := if s.initialized then Done else SetCounter)
    case SetCounter =>
      Init(s.fs.(nextInode := if s.fs.nextInode == 0 then 1 else s.fs.nextInode), s.initialized, RootHash)
    case RootHash =>
      var root := EMPTY_META.(mode := DIR_MODE, size := 4096, nlink := 2);
      Init(if 1 in s.fs.inodes then s.fs else SetMeta(s.fs, 1, root), s.initialized, RootDir)
    case RootDir =>
      Init(s.fs.(dirs := s.fs.dirs[1 := DirOr(s.fs.dirs, 1)["." := 1][".." := 1]]), s.initialized, Make(0))
    case Make(k) =>
      if k >= |profile.entries| then s.(pc := Finish)
      else if profile.entries[k].path == [] then s.(pc := Make(k + 1))
      else
        var (fs', pc') := MakeEntry(profile.entries[k], k, s.fs);
        Init(fs', s.initialized, pc')
    case StateField(k, ino) =>
      if k >= |profile.entries| then s.(pc := Failed(k))
      else
        var m := MetaOr(s.fs.inodes, ino);
        var st := InitialState(profile.entries[k]);
        Init(SetMeta(s.fs, ino, if m.contentState.Some? then m else m.(contentState := Some(st))),
             s.initialized, ClassField(k, ino))
    case ClassField(k, ino) =>
      if k >= |profile.entries| then s.(pc := Failed(k))
      else
        var m := MetaOr(s.fs.inodes, ino);
        Init(SetMeta(s.fs, ino, if m.manifestClass.Some? then m else m.(manifestClass := Some(profile.entries[k].cls))),
             s.initialized, Attributes(k, ino))
    case Attributes(k, ino) =>
      if k >= |profile.entries| then s.(pc := Failed(k))
      else
        var e := profile.entries[k];
        var m := MetaOr(s.fs.inodes, ino);
        var uid := if e.uid.Some? then e.uid.value else profile.Owner(e);
        var gid := if e.gid.Some? then e.gid.value else profile.Owner(e);
        Init(SetMeta(s.fs, ino, m.(uid := uid, gid := gid, mode := profile.ModeFor(e))), s.initialized, Make(k + 1))
    case Finish => Init(s.fs, true, Done)
    case Done => s
    case Failed(_) => s
  }

  /** The uninterrupted run on an empty store, `n` commands in. */
  function Clean(profile: Profile, n: nat): Init
  {
    if n == 0 then EMPTY else Next(profile, Clean(profile, n - 1))
  }

  /** `crash[t]` says whether the process dies instead of issuing its next command. */
  function Interrupted(profile: Profile, crash: seq<bool>): Init
  {
    if crash == [] then EMPTY
    else
      var s := Interrupted(profile, crash[..|crash| - 1]);
      if crash[|crash| - 1] then s.(pc := Start) else Next(profile, s)
  }

  // ---- The clean run only adds ---------------------------------------------------

  /** Past the creation of the root. */
  predicate Working(pc: Pc)
  {
    !pc.Start? && !pc.SetCounter? && !pc.RootHash? && !pc.RootDir?
  }

  /** Facts of every state of the clean run. */
  ghost predicate Sane(s: Init) { Shaped(s) && RootKept(s) }

  ghost predicate Shaped(s: Init)
  {
    && (forall i <- s.fs.inodes :: 1 <= i && (i <= s.fs.nextInode))
    && (forall d: Ino, n :: Entry(s.fs, d, n).Some? ==> Entry(s.fs, d, n).value in s.fs.inodes)
    && (HasIno(s.pc) ==> s.pc.ino in s.fs.inodes)
    && (Working(s.pc) || s.pc.RootDir? ==> 1 in s.fs.inodes)
    && (s.pc.RootHash? || s.pc.RootDir? ==> s.fs.nextInode >= 1)
    && (forall d <- s.fs.dirs :: d in s.fs.inodes)
    && (!Working(s.pc) ==> s.fs.dirs == map[])
    && (s.initialized ==> s.pc.Done?)
  }

  predicate HasIno(pc: Pc) { pc.StateField? || pc.ClassField? || pc.Attributes? }

  /** No manifest entry ever names the root, so its own attributes stay. */
  ghost predicate RootKept(s: Init)
  {
    && RootAttributes(s.fs)
    && (forall d: Ino, n :: Entry(s.fs, d, n).Some? && !Dot(n) ==> Entry(s.fs, d, n).value != 1)
    && (HasIno(s.pc) ==> s.pc.ino != 1)
  }

  ghost predicate RootAttributes(fs: Fs)
  {
    1 in fs.inodes ==> fs.inodes[1].mode == DIR_MODE && fs.inodes[1].uid == 0 && fs.inodes[1].gid == 0
  }

  /** Later states keep every entry, inode and classification of earlier ones. */
  ghost predicate Extends(a: Fs, b: Fs)
  {
    && (forall d: Ino, n :: Entry(a, d, n).Some? ==> Entry(b, d, n) == Entry(a, d, n))
    && (a.nextInode != 0 ==> b.nextInode != 0)
    && (forall i <- a.inodes ::
          && i in b.inodes
          && (a.inodes[i].contentState.Some? ==> b.inodes[i].contentState == a.inodes[i].contentState)
          && (a.inodes[i].manifestClass.Some? ==> b.inodes[i].manifestClass == a.inodes[i].manifestClass))
  }

  lemma {:induction false} ResolveExtends(a: Fs, b: Fs, cur: Ino, p: Path)
    requires Extends(a, b) && ResolveFrom(a, cur, p).Some?
    ensures ResolveFrom(b, cur, p) == ResolveFrom(a, cur, p)
    decreases |p|
  {
    hide Entry;
    if p != [] { ResolveExtends(a, b, Entry(a, cur, p[0]).value, p[1..]); }
  }

  lemma {:induction false} ResolveIsLive(s: Init, cur: Ino, p: Path)
    requires Shaped(s) && cur in s.fs.inodes && ResolveFrom(s.fs, cur, p).Some?
    ensures ResolveFrom(s.fs, cur, p).value in s.fs.inodes
    decreases |p|
  {
    hide Entry;
    if p != [] { ResolveIsLive(s, Entry(s.fs, cur, p[0]).value, p[1..]); }
  }

  lemma MakeFacts(e: ManifestEntry, k: nat, s: Init)
    requires e.path != [] && Sane(s) && Working(s.pc)
    ensures var (fs', pc') := MakeEntry(e, k, s.fs);
            && Extends(s.fs, fs')
            && Sane(Init(fs', false, pc'))
  {
    hide IsDir, BadName, Shaped, RootKept;
    var d := ResolveFrom(s.fs, 1, FsRefinement.Init(e.path));
    if d.Some? && CheckNew(s.fs, d.value, Last(e.path)).None? {
      assert d.value in s.fs.inodes by { RootIsLive(s); ResolveIsLive(s, 1, FsRefinement.Init(e.path)); }
      if e.dir {
        MkdirIsShaped(s, d.value, Last(e.path));
        MkdirKeepsRoot(s, d.value, Last(e.path));
      } else {
        CreateIsShaped(s, d.value, Last(e.path));
        CreateKeepsRoot(s, d.value, Last(e.path));
      }
    } else {
      SameIsSane(e, k, s);
    }
  }

  lemma RootIsLive(s: Init)
    requires Shaped(s) && Working(s.pc)
    ensures 1 in s.fs.inodes && s.fs.nextInode >= 1
  {
  }

  lemma SameIsSane(e: ManifestEntry, k: nat, s: Init)
    requires e.path != [] && Sane(s) && Working(s.pc)
    requires MakeEntry(e, k, s.fs).0 == s.fs
    requires var d := ResolveFrom(s.fs, 1, FsRefinement.Init(e.path));
             d.Some? ==> CheckNew(s.fs, d.value, Last(e.path)).Some?
    ensures Extends(s.fs, s.fs) && Sane(Init(s.fs, false, MakeEntry(e, k, s.fs).1))
  {
    hide IsDir, Entry;
    if HasIno(MakeEntry(e, k, s.fs).1) {
      var d := ResolveFrom(s.fs, 1, FsRefinement.Init(e.path));
      assert CheckNew(s.fs, d.value, Last(e.path)) == Some(Exists);
      ResolveLast(s.fs, e.path);
      ResolveIsLive(s, 1, e.path);
    }
  }

  /** A state after a script reported the fresh inode. */
  ghost predicate AfterNew(fs': Fs, pc: Pc)
  {
    Working(pc) && (HasIno(pc) ==> pc.ino == fs'.nextInode)
  }

  lemma CreateIsShaped(s: Init, d: Ino, name: string)
    requires Shaped(s) && Working(s.pc) && CheckNew(s.fs, d, name).None? && d in s.fs.inodes
    ensures var fs' := DoCreate(s.fs, d, name, FILE_MODE).0;
            Extends(s.fs, fs') && (forall pc: Pc | AfterNew(fs', pc) :: Shaped(Init(fs', false, pc)))
  {
    hide IsDir, BadName;
  }

  lemma CreateKeepsRoot(s: Init, d: Ino, name: string)
    requires Sane(s) && Working(s.pc) && CheckNew(s.fs, d, name).None? && d in s.fs.inodes
    ensures var fs' := DoCreate(s.fs, d, name, FILE_MODE).0;
            forall pc: Pc | AfterNew(fs', pc) :: RootKept(Init(fs', false, pc))
  {
    hide IsDir, BadName, Dot;
    var fs' := DoCreate(s.fs, d, name, FILE_MODE).0;
    assert forall x: Ino, n :: Entry(fs', x, n) == if x == d && n == name then Some(fs'.nextInode) else Entry(s.fs, x, n);
  }

  lemma MkdirIsShaped(s: Init, d: Ino, name: string)
    requires Shaped(s) && Working(s.pc) && CheckNew(s.fs, d, name).None? && d in s.fs.inodes
    ensures var fs' := DoMkdir(s.fs, d, name, DIR_MODE).0;
            Extends(s.fs, fs') && (forall pc: Pc | AfterNew(fs', pc) :: Shaped(Init(fs', false, pc)))
  {
    hide IsDir, BadName, Dot;
    var fs' := DoMkdir(s.fs, d, name, DIR_MODE).0;
    MkdirEntries(s, d, name);
    assert fs'.inodes.Keys == s.fs.inodes.Keys + {fs'.nextInode};
  }

  lemma MkdirEntries(s: Init, d: Ino, name: string)
    requires Shaped(s) && Working(s.pc) && CheckNew(s.fs, d, name).None? && d in s.fs.inodes
    ensures var fs' := DoMkdir(s.fs, d, name, DIR_MODE).0;
            && fs'.dirs.Keys == s.fs.dirs.Keys + {d, fs'.nextInode}
            && fs'.nextInode !in s.fs.inodes
            && forall x: Ino, n ::
                 Entry(fs', x, n) == if x == d && n == name then Some(fs'.nextInode)
                                     else if x != fs'.nextInode then Entry(s.fs, x, n)
                                     else if n == ".." then Some(d) else if n == "." then Some(x) else None
  {
    hide IsDir, BadName, Dot;
  }

  lemma MkdirKeepsRoot(s: Init, d: Ino, name: string)
    requires Sane(s) && Working(s.pc) && CheckNew(s.fs, d, name).None? && d in s.fs.inodes
    ensures var fs' := DoMkdir(s.fs, d, name, DIR_MODE).0;
            forall pc: Pc | AfterNew(fs', pc) :: RootKept(Init(fs', false, pc))
  {
    hide IsDir, BadName, Dot, Entry;
    var fs' := DoMkdir(s.fs, d, name, DIR_MODE).0;
    MkdirEntries(s, d, name);
    DotNames();
  }

  lemma NextIsSane(profile: Profile, s: Init)
    requires Sane(s)
    ensures Sane(Next(profile, s)) && Extends(s.fs, Next(profile, s).fs)
  {
    hide MakeEntry, Dot;
    if s.pc.Make? {
      if s.pc.k < |profile.entries| && profile.entries[s.pc.k].path != [] {
        MakeFacts(profile.entries[s.pc.k], s.pc.k, s);
      }
    } else if HasIno(s.pc) {
      FieldStepIsSane(profile, s);
    } else if s.pc.RootDir? {
      assert forall d: Ino, n ::
          Entry(Next(profile, s).fs, d, n) == if d == 1 && (n == "." || n == "..") then Some(1) else None;
      DotNames();
    }
  }

  lemma FieldStepIsSane(profile: Profile, s: Init)
    requires Sane(s) && HasIno(s.pc)
    ensures Sane(Next(profile, s)) && Extends(s.fs, Next(profile, s).fs)
  {
    hide MakeEntry, Dot;
    var s' := Next(profile, s);
    assert s'.fs.dirs == s.fs.dirs;
    assert forall d: Ino, n :: Entry(s'.fs, d, n) == Entry(s.fs, d, n);
    assert s'.fs.inodes.Keys == s.fs.inodes.Keys;
  }

  lemma {:induction false} CleanIsSane(profile: Profile, n: nat)
    ensures Sane(Clean(profile, n))
    decreases n
  {
    hide Next, Sane;
    if n == 0 {
      EmptyIsSane();
    } else {
      CleanIsSane(profile, n - 1);
      NextIsSane(profile, Clean(profile, n - 1));
    }
  }

  lemma EmptyIsSane()
    ensures Sane(EMPTY)
  {
  }

  lemma {:induction false} CleanExtends(profile: Profile, j: nat, m: nat)
    requires j <= m
    ensures Extends(Clean(profile, j).fs, Clean(profile, m).fs)
    decreases m - j
  {
    hide Next, Sane, Entry;
    if j < m {
      CleanExtends(profile, j, m - 1);
      CleanIsSane(profile, m - 1);
      NextIsSane(profile, Clean(profile, m - 1));
    }
  }

  lemma {:induction false} CleanInBounds(profile: Profile, n: nat)
    ensures HasIno(Clean(profile, n).pc) ==> Clean(profile, n).pc.k < |profile.entries|
    decreases n
  {
    hide DoCreate, DoMkdir, ResolveFrom;
    if n > 0 { CleanInBounds(profile, n - 1); }
  }

  // ---- An interrupted run is the clean run laid over its furthest point ----------------

  predicate SameAttributes(a: Meta, b: Meta)
  {
    a.mode == b.mode && a.uid == b.uid && a.gid == b.gid
  }

  /** Between creating an inode and setting its attributes they may still be those an
      earlier attempt set. */
  function Exempt(pc: Pc): Option<Ino>
  {
    if HasIno(pc) then Some(pc.ino) else None
  }

  /** The store `s` of an attempt at the clean state `c`, when some attempt got as far as
      the clean store `f`: everything is as in `f`, but the attributes are those of `c`
      wherever this attempt has set them. */
  ghost predicate Overlay(c: Init, f: Fs, s: Fs)
  {
    && s.nextInode == f.nextInode && s.dirs == f.dirs && s.inodes.Keys == f.inodes.Keys
    && RootAttributes(s)
    && (forall i <- f.inodes ::
          s.inodes[i] == f.inodes[i].(mode := s.inodes[i].mode, uid := s.inodes[i].uid, gid := s.inodes[i].gid))
    && (forall i <- c.fs.inodes | Some(i) != Exempt(c.pc) ::
          i in s.inodes && SameAttributes(s.inodes[i], c.fs.inodes[i]))
  }

  lemma OverlayOfItself(c: Init, s: Fs)
    requires Overlay(c, c.fs, s) && !HasIno(c.pc)
    ensures s == c.fs
  {
    forall i <- s.inodes ensures s.inodes[i] == c.fs.inodes[i] {}
    assert s.inodes == c.fs.inodes;
  }

  /** Redoing a step that an earlier attempt already got past. */
  lemma RedoStep(profile: Profile, c: Init, f: Fs, s: Init)
    requires Sane(c) && s.pc == c.pc && !s.initialized && !c.initialized
    requires Overlay(c, f, s.fs)
    requires Extends(Next(profile, c).fs, f) && !Next(profile, c).pc.Failed?
    ensures Next(profile, s).pc == Next(profile, c).pc
    ensures Overlay(Next(profile, c), f, Next(profile, s).fs)
  {
    hide MakeEntry, Sane, Extends, Dot, Entry;
    match c.pc
    case Make(k) =>
      if k < |profile.entries| && profile.entries[k].path != [] {
        RedoMake(profile.entries[k], k, c, f, s);
      }
    case StateField(k, ino) => RedoField(profile, c, f, s);
    case ClassField(k, ino) => RedoField(profile, c, f, s);
    case Attributes(k, ino) => RedoAttributes(profile, c, f, s);
    case RootDir => RedoRootDir(profile, c, f, s);
    case SetCounter => CounterExtends(profile, c, f);
    case RootHash => RedoRootHash(profile, c, f, s);
    case _ =>
  }

  lemma CounterExtends(profile: Profile, c: Init, f: Fs)
    requires c.pc.SetCounter? && Extends(Next(profile, c).fs, f)
    ensures f.nextInode != 0
  {
  }

  lemma RedoRootHash(profile: Profile, c: Init, f: Fs, s: Init)
    requires Sane(c) && s.pc == c.pc == RootHash && !s.initialized && !c.initialized
    requires Overlay(c, f, s.fs) && Extends(Next(profile, c).fs, f)
    ensures Overlay(Next(profile, c), f, Next(profile, s).fs)
  {
    hide Entry;
    assert 1 in Next(profile, c).fs.inodes && 1 in s.fs.inodes;
  }

  lemma RedoRootDir(profile: Profile, c: Init, f: Fs, s: Init)
    requires Sane(c) && s.pc == c.pc == RootDir && !s.initialized && !c.initialized
    requires Overlay(c, f, s.fs) && Extends(Next(profile, c).fs, f)
    ensures Overlay(Next(profile, c), f, Next(profile, s).fs)
  {
    var c' := Next(profile, c).fs;
    assert Entry(c', 1, ".") == Some(1) && Entry(c', 1, "..") == Some(1);
    assert f.dirs[1]["." := 1][".." := 1] == f.dirs[1];
    assert Next(profile, s).fs.dirs == f.dirs;
  }

  lemma RedoField(profile: Profile, c: Init, f: Fs, s: Init)
    requires Sane(c) && s.pc == c.pc && (c.pc.StateField? || c.pc.ClassField?) && !s.initialized && !c.initialized
    requires Overlay(c, f, s.fs) && Extends(Next(profile, c).fs, f) && !Next(profile, c).pc.Failed?
    ensures Next(profile, s).pc == Next(profile, c).pc
    ensures Overlay(Next(profile, c), f, Next(profile, s).fs)
  {
    hide Entry;
    var ino := c.pc.ino;
    assert ino in c.fs.inodes && ino in f.inodes;
    assert Next(profile, s).fs.inodes == s.fs.inodes;
  }

  lemma RedoAttributes(profile: Profile, c: Init, f: Fs, s: Init)
    requires Sane(c) && s.pc == c.pc && c.pc.Attributes? && !s.initialized && !c.initialized
    requires Overlay(c, f, s.fs) && Extends(Next(profile, c).fs, f) && !Next(profile, c).pc.Failed?
    ensures Next(profile, s).pc == Next(profile, c).pc
    ensures Overlay(Next(profile, c), f, Next(profile, s).fs)
  {
    hide Entry;
    var ino := c.pc.ino;
    assert ino in c.fs.inodes && ino in f.inodes && ino in s.fs.inodes;
  }

  /** What the clean run's successful creation or rediscovery of an entry shows. */
  lemma MakeFound(e: ManifestEntry, k: nat, c: Init)
    requires Sane(c) && Working(c.pc) && e.path != [] && !MakeEntry(e, k, c.fs).1.Failed?
    ensures var (c', pc') := MakeEntry(e, k, c.fs);
            var d := ResolveFrom(c.fs, 1, FsRefinement.Init(e.path));
            && d.Some? && d.value in c.fs.inodes && IsDir(c.fs.inodes[d.value].mode)
            && !BadName(Last(e.path))
            && HasIno(pc') && pc'.ino != 0 && Entry(c', d.value, Last(e.path)) == Some(pc'.ino)
            && pc' == (if e.dir then Attributes(k, pc'.ino) else StateField(k, pc'.ino))
            && (forall i <- c'.inodes | i != pc'.ino :: i in c.fs.inodes && SameAttributes(c'.inodes[i], c.fs.inodes[i]))
  {
    hide IsDir, BadName;
    assert Shaped(c) && 1 in c.fs.inodes;
    var parent := FsRefinement.Init(e.path);
    ResolveIsLive(c, 1, parent);
    ResolveLast(c.fs, e.path);
  }

  lemma SameWalk(f: Fs, s: Fs, cur: Ino, p: Path)
    requires s.dirs == f.dirs
    ensures ResolveFrom(s, cur, p) == ResolveFrom(f, cur, p)
    decreases |p|
  {
    if p != [] && Entry(f, cur, p[0]).Some? { SameWalk(f, s, Entry(f, cur, p[0]).value, p[1..]); }
  }

  /** An entry created by an earlier attempt is found again under the same number. */
  lemma RedoMake(e: ManifestEntry, k: nat, c: Init, f: Fs, s: Init)
    requires Sane(c) && Working(c.pc) && !HasIno(c.pc) && e.path != []
    requires Overlay(c, f, s.fs)
    requires !MakeEntry(e, k, c.fs).1.Failed? && Extends(MakeEntry(e, k, c.fs).0, f)
    ensures MakeEntry(e, k, s.fs) == (s.fs, MakeEntry(e, k, c.fs).1)
    ensures Overlay(Init(MakeEntry(e, k, c.fs).0, false, MakeEntry(e, k, c.fs).1), f, s.fs)
  {
    hide IsDir, BadName, Sane, MakeEntry;
    var parent := FsRefinement.Init(e.path);
    var name := Last(e.path);
    var (c', pc') := MakeEntry(e, k, c.fs);
    MakeFound(e, k, c);
    MakeFacts(e, k, c);
    var d := ResolveFrom(c.fs, 1, parent).value;
    assert Extends(c.fs, f);
    ResolveExtends(c.fs, f, 1, parent);
    SameWalk(f, s.fs, 1, parent);
    ResolveLast(s.fs, e.path);
    assert Entry(s.fs, d, name) == Some(pc'.ino);
    FoundAgain(e, k, s.fs, d, pc'.ino);
  }

  lemma FoundAgain(e: ManifestEntry, k: nat, s: Fs, d: Ino, ino: Ino)
    requires e.path != [] && ResolveFrom(s, 1, FsRefinement.Init(e.path)) == Some(d)
    requires d in s.inodes && IsDir(s.inodes[d].mode) && !BadName(Last(e.path))
    requires Entry(s, d, Last(e.path)) == Some(ino) && ResolveFrom(s, 1, e.path) == Some(ino)
    ensures MakeEntry(e, k, s) == (s, if e.dir then Attributes(k, ino) else StateField(k, ino))
  {
    hide IsDir, BadName;
  }

  /** A step beyond every earlier attempt does what the clean run does. */
  lemma NewStep(profile: Profile, c: Init, s: Init)
    requires Sane(c) && s.pc == c.pc && !s.initialized && !c.initialized
    requires HasIno(c.pc) ==> c.pc.k < |profile.entries|
    requires Overlay(c, c.fs, s.fs)
    ensures Next(profile, s).pc == Next(profile, c).pc
    ensures Overlay(Next(profile, c), Next(profile, c).fs, Next(profile, s).fs)
    ensures Next(profile, s).initialized == Next(profile, c).initialized
  {
    if HasIno(c.pc) {
      NewFieldStep(profile, c, s);
    } else {
      hide Next, Overlay, Sane;
      OverlayOfItself(c, s.fs);
      assert s == c;
      NextIsSane(profile, c);
      OverlayReflexive(Next(profile, c));
    }
  }

  lemma OverlayReflexive(c: Init)
    requires Sane(c)
    ensures Overlay(c, c.fs, c.fs)
  {
    hide Entry, Dot;
  }

  lemma NewFieldStep(profile: Profile, c: Init, s: Init)
    requires Sane(c) && HasIno(c.pc) && s.pc == c.pc && !s.initialized && !c.initialized
    requires HasIno(c.pc) ==> c.pc.k < |profile.entries|
    requires Overlay(c, c.fs, s.fs)
    ensures Next(profile, s).pc == Next(profile, c).pc
    ensures Overlay(Next(profile, c), Next(profile, c).fs, Next(profile, s).fs)
    ensures Next(profile, s).initialized == Next(profile, c).initialized
  {
    hide MakeEntry, Entry, Dot;
    var ino := c.pc.ino;
    assert ino in c.fs.inodes && ino in s.fs.inodes && ino != 1;
    assert s.fs.inodes[ino].contentState == c.fs.inodes[ino].contentState;
    assert s.fs.inodes[ino].manifestClass == c.fs.inodes[ino].manifestClass;
  }

  /** What every interrupted run satisfies. */
  ghost predicate LaidOver(profile: Profile, s: Init)
  {
    if s.initialized then
      (s.pc.Start? || s.pc.Done?) && exists n: nat :: Clean(profile, n).pc.Done? && s.fs == Clean(profile, n).fs
    else
      exists j: nat, m: nat :: At(profile, s, j, m)
  }

  ghost predicate At(profile: Profile, s: Init, j: nat, m: nat)
  {
    && j <= m && s.pc == Clean(profile, j).pc && !Clean(profile, j).initialized
    && Overlay(Clean(profile, j), Clean(profile, m).fs, s.fs)
  }

  lemma {:induction false} HaltedStays(profile: Profile, j: nat, m: nat)
    requires j <= m && (Clean(profile, j).pc.Done? || Clean(profile, j).pc.Failed?)
    ensures Clean(profile, m) == Clean(profile, j)
    decreases m - j
  {
    if j < m { HaltedStays(profile, j, m - 1); }
  }

  /** A failing or finishing step changes no table. */
  lemma HaltingStepKeepsStore(profile: Profile, c: Init)
    requires Next(profile, c).pc.Failed? || Next(profile, c).pc.Done?
    ensures Next(profile, c).fs == c.fs
  {
    hide IsDir, BadName, Entry;
    if c.pc.Make? && c.pc.k < |profile.entries| && profile.entries[c.pc.k].path != [] {
      FailingMakeKeepsStore(profile.entries[c.pc.k], c.pc.k, c.fs);
    }
  }

  lemma FailingMakeKeepsStore(e: ManifestEntry, k: nat, fs: Fs)
    requires e.path != [] && !HasIno(MakeEntry(e, k, fs).1)
    ensures MakeEntry(e, k, fs).0 == fs
  {
    hide IsDir, BadName, Entry;
  }

  lemma LateIsHere(profile: Profile, j: nat, m: nat)
    requires j <= m
    requires j == m || Clean(profile, j + 1).pc.Failed? || Clean(profile, j + 1).pc.Done?
    ensures Clean(profile, m).fs == Clean(profile, j).fs
  {
    hide Next;
    if j < m {
      HaltingStepKeepsStore(profile, Clean(profile, j));
      HaltedStays(profile, j + 1, m);
    }
  }

  lemma AdvanceAt(profile: Profile, s: Init, j: nat, m: nat)
    requires !s.initialized && At(profile, s, j, m)
    ensures LaidOver(profile, Next(profile, s))
  {
    hide Next, Overlay, Sane, Extends;
    var c := Clean(profile, j);
    var c' := Clean(profile, j + 1);
    assert c' == Next(profile, c);
    CleanIsSane(profile, j);
    if j == m || c'.pc.Failed? || c'.pc.Done? {
      LateIsHere(profile, j, m);
      CleanInBounds(profile, j);
      NewStep(profile, c, s);
      AfterNewStep(profile, Next(profile, s), j + 1);
    } else {
      CleanExtends(profile, j + 1, m);
      RedoStep(profile, c, Clean(profile, m).fs, s);
      NotYetInitialized(profile, s);
      NotYetInitialized(profile, c);
      assert At(profile, Next(profile, s), j + 1, m);
    }
  }

  lemma NotYetInitialized(profile: Profile, s: Init)
    requires !Next(profile, s).pc.Done? && !s.initialized
    ensures !Next(profile, s).initialized
  {
  }

  lemma AfterNewStep(profile: Profile, s: Init, j: nat)
    requires s.pc == Clean(profile, j).pc && s.initialized == Clean(profile, j).initialized
    requires Overlay(Clean(profile, j), Clean(profile, j).fs, s.fs)
    ensures LaidOver(profile, s)
  {
    hide Next, Overlay;
    if s.initialized {
      InitializedIsDone(profile, j);
      OverlayOfItself(Clean(profile, j), s.fs);
    } else {
      assert At(profile, s, j, j);
    }
  }

  lemma InitializedIsDone(profile: Profile, j: nat)
    requires Clean(profile, j).initialized
    ensures Clean(profile, j).pc.Done?
  {
    hide Next;
    CleanIsSane(profile, j);
  }

  lemma {:induction false} InterruptedIsLaidOver(profile: Profile, crash: seq<bool>)
    ensures LaidOver(profile, Interrupted(profile, crash))
    decreases |crash|
  {
    hide Next, Overlay;
    if crash == [] {
      EmptyOverlay(EMPTY.fs);
      assert At(profile, EMPTY, 0, 0);
    } else {
      var before := crash[..|crash| - 1];
      var s := Interrupted(profile, before);
      InterruptedIsLaidOver(profile, before);
      if crash[|crash| - 1] {
        if !s.initialized {
          var j: nat, m: nat :| At(profile, s, j, m);
          RestartOverlay(profile, s, j, m);
          assert At(profile, s.(pc := Start), 0, m);
        }
      } else if s.initialized {
        DoneOrRestarted(profile, s);
      } else {
        var j: nat, m: nat :| At(profile, s, j, m);
        AdvanceAt(profile, s, j, m);
      }
    }
  }

  lemma EmptyOverlay(f: Fs)
    requires RootAttributes(f)
    ensures Overlay(EMPTY, f, f)
  {
  }

  lemma RestartOverlay(profile: Profile, s: Init, j: nat, m: nat)
    requires At(profile, s, j, m)
    ensures Overlay(EMPTY, Clean(profile, m).fs, s.fs)
  {
    hide Next;
  }

  lemma DoneOrRestarted(profile: Profile, s: Init)
    requires s.initialized && (s.pc.Start? || s.pc.Done?)
    ensures Next(profile, s) == s.(pc := Done)
  {
  }

  // ---- Convergence --------------------------------------------------------------

  /** However often the build is interrupted, once it completes the store is the one a
      single clean run leaves: same entries, inode numbers, modes, owners, link counts,
      content states and classes. */
  lemma ConvergesToCleanRun(profile: Profile, crash: seq<bool>, n: nat)
    requires Interrupted(profile, crash).pc.Done?
    requires Clean(profile, n).pc.Done? || Clean(profile, n).pc.Failed?
    ensures Clean(profile, n).pc.Done?
    ensures Interrupted(profile, crash).fs == Clean(profile, n).fs
  {
    hide Next, Overlay;
    var s := Interrupted(profile, crash);
    InterruptedIsLaidOver(profile, crash);
    if s.initialized {
      var d: nat :| Clean(profile, d).pc.Done? && s.fs == Clean(profile, d).fs;
      SameEnd(profile, d, n);
    } else {
      var j: nat, m: nat :| At(profile, s, j, m);
      HaltedStays(profile, j, m);
      OverlayOfItself(Clean(profile, j), s.fs);
      SameEnd(profile, j, n);
    }
  }

  lemma SameEnd(profile: Profile, a: nat, b: nat)
    requires Clean(profile, a).pc.Done? || Clean(profile, a).pc.Failed?
    requires Clean(profile, b).pc.Done? || Clean(profile, b).pc.Failed?
    ensures Clean(profile, a) == Clean(profile, b)
  {
    hide Next;
    if a <= b { HaltedStays(profile, a, b); } else { HaltedStays(profile, b, a); }
  }

  /** An interrupted build fails on an entry only if the clean run fails on the same
      entry, leaving the same store. */
  lemma FailsAsCleanRun(profile: Profile, crash: seq<bool>, n: nat)
    requires Interrupted(profile, crash).pc.Failed?
    requires Clean(profile, n).pc.Done? || Clean(profile, n).pc.Failed?
    ensures Clean(profile, n).pc == Interrupted(profile, crash).pc
    ensures Clean(profile, n).fs == Interrupted(profile, crash).fs
  {
    hide Next, Overlay;
    var s := Interrupted(profile, crash);
    InterruptedIsLaidOver(profile, crash);
    var j: nat, m: nat :| At(profile, s, j, m);
    HaltedStays(profile, j, m);
    OverlayOfItself(Clean(profile, j), s.fs);
    SameEnd(profile, j, n);
  }

  function Rank(profile: Profile, pc: Pc): nat
  {
    var left := (k: nat) => 4 * (if k < |profile.entries| then |profile.entries| - k else 0);
    match pc
    case Start => left(0) + 9
    case SetCounter => left(0) + 8
    case RootHash => left(0) + 7
    case RootDir => left(0) + 6
    case Make(k) => left(k) + 5
    case StateField(k, _) => left(k) + 4
    case ClassField(k, _) => left(k) + 3
    case Attributes(k, _) => left(k) + 2
    case Finish => 1
    case Done => 0
    case Failed(_) => 0
  }

  /** From any state, that many commands without a crash reach the end. */
  lemma {:induction false} RunsToEnd(profile: Profile, crash: seq<bool>, n: nat)
    requires n >= Rank(profile, Interrupted(profile, crash).pc)
    ensures var s := Interrupted(profile, crash + seq(n, _ => false)); s.pc.Done? || s.pc.Failed?
    decreases n
  {
    hide Next;
    var s := Interrupted(profile, crash);
    if s.pc.Done? || s.pc.Failed? {
      StaysAtEnd(profile, crash, n);
    } else {
      var more := crash + [false];
      assert more[..|crash|] == crash;
      assert Interrupted(profile, more) == Next(profile, s);
      RankFalls(profile, s);
      RunsToEnd(profile, more, n - 1);
      assert more + seq(n - 1, _ => false) == crash + seq(n, _ => false);
    }
  }

  lemma RankFalls(profile: Profile, s: Init)
    requires !s.pc.Done? && !s.pc.Failed?
    ensures Rank(profile, Next(profile, s).pc) < Rank(profile, s.pc)
  {
    hide DoCreate, DoMkdir, ResolveFrom;
  }

  lemma {:induction false} StaysAtEnd(profile: Profile, crash: seq<bool>, n: nat)
    requires Interrupted(profile, crash).pc.Done? || Interrupted(profile, crash).pc.Failed?
    ensures Interrupted(profile, crash + seq(n, _ => false)).pc == Interrupted(profile, crash).pc
    decreases n
  {
    hide MakeEntry;
    if n == 0 {
      assert crash + seq(0, _ => false) == crash;
    } else {
      StaysAtEnd(profile, crash, n - 1);
      var run := crash + seq(n, _ => false);
      assert run[..|run| - 1] == crash + seq(n - 1, _ => false);
    }
  }

  /** The same commands, crashes and restarts on any store, whatever it holds already. */
  function Attempts(profile: Profile, start: Init, crash: seq<bool>): Init
    decreases |crash|
  {
    if crash == [] then start
    else
      var s := Attempts(profile, start, crash[..|crash| - 1]);
      if crash[|crash| - 1] then s.(pc := Start) else Next(profile, s)
  }

  lemma {:induction false} AttemptsGoOn(profile: Profile, crash: seq<bool>, more: seq<bool>)
    ensures Interrupted(profile, crash + more) == Attempts(profile, Interrupted(profile, crash), more)
    decreases |more|
  {
    hide Next;
    if more == [] {
      assert crash + more == crash;
    } else {
      var front := more[..|more| - 1];
      AttemptsGoOn(profile, crash, front);
      assert (crash + more)[..|crash + more| - 1] == crash + front;
    }
  }

  lemma StepKeepsContentState(profile: Profile, s: Init, i: Ino)
    requires i in s.fs.inodes && s.fs.inodes[i].contentState.Some?
    ensures i in Next(profile, s).fs.inodes
    ensures Next(profile, s).fs.inodes[i].contentState == s.fs.inodes[i].contentState
  {
    hide FileType, BadName, Dot, Profile.ModeFor, Profile.Owner, ResolveFrom;
  }

  /** From any store, through any number of commands, crashes and restarts, a content state
      that is set stays as it is: written and generated files survive a resumed build. */
  lemma {:induction false} AttemptsKeepContentState(profile: Profile, start: Init, crash: seq<bool>, i: Ino)
    requires i in start.fs.inodes && start.fs.inodes[i].contentState.Some?
    ensures var fs := Attempts(profile, start, crash).fs;
            i in fs.inodes && fs.inodes[i].contentState == start.fs.inodes[i].contentState
    decreases |crash|
  {
    hide Next;
    if crash != [] {
      var front := crash[..|crash| - 1];
      AttemptsKeepContentState(profile, start, front, i);
      StepKeepsContentState(profile, Attempts(profile, start, front), i);
    }
  }

  /** A content state set by one attempt is the same after any continuation, restarts over
      the partly built store included. */
  lemma ContentStateIsKept(profile: Profile, crash: seq<bool>, more: seq<bool>, i: Ino)
    requires i in Interrupted(profile, crash).fs.inodes && Interrupted(profile, crash).fs.inodes[i].contentState.Some?
    ensures i in Interrupted(profile, crash + more).fs.inodes
    ensures Interrupted(profile, crash + more).fs.inodes[i].contentState ==
            Interrupted(profile, crash).fs.inodes[i].contentState
  {
    hide Next;
    AttemptsGoOn(profile, crash, more);
    AttemptsKeepContentState(profile, Interrupted(profile, crash), more, i);
  }

  // ---- The finished namespace is a tree ---------------------------------------------

  /** The manifest names no "." or "..", and never one path both as file and directory. */
  ghost predicate WellFormed(profile: Profile)
  {
    && (forall e <- profile.entries :: Normal(e.path))
    && (forall e, f | e in profile.entries && f in profile.entries && e.path == f.path :: e.dir == f.dir)
  }

  /** Every path of the view is a manifest entry of that kind. */
  ghost predicate Listed(profile: Profile, fs: Fs)
  {
    forall p <- View(fs) | p != [] :: IsListed(profile, p, View(fs)[p].dir)
  }

  ghost predicate IsListed(profile: Profile, p: Path, dir: bool)
  {
    exists e <- profile.entries :: e.path == p && e.dir == dir
  }

  ghost predicate Growing(profile: Profile, s: Init)
  {
    && Tree(s.fs) && Listed(profile, s.fs)
    && (HasIno(s.pc) ==>
          && s.pc.k < |profile.entries| && s.pc.ino in s.fs.inodes
          && IsDir(s.fs.inodes[s.pc.ino].mode) == profile.entries[s.pc.k].dir)
  }

  lemma SetupGivesRoot(profile: Profile)
    ensures Clean(profile, 4).fs == ROOT_FS && Clean(profile, 4).pc == Make(0)
  {
    assert Clean(profile, 1) == Next(profile, EMPTY) by { assert Clean(profile, 0) == EMPTY; }
    assert Clean(profile, 2) == Next(profile, Clean(profile, 1));
    assert Clean(profile, 3) == Next(profile, Clean(profile, 2));
    assert Clean(profile, 4) == Next(profile, Clean(profile, 3));
  }

  lemma GrowingStart(profile: Profile)
    ensures Growing(profile, Clean(profile, 4))
  {
    hide Next, TreeOf, FileType;
    SetupGivesRoot(profile);
    RootIsTree();
    forall p <- View(ROOT_FS) ensures p == [] {
      if p != [] {
        ViewIsPrefixClosed(ROOT_FS, p);
        ResolveLast(ROOT_FS, p);
        OnlyRootDots(ResolveFrom(ROOT_FS, 1, FsRefinement.Init(p)).value, Last(p));
      }
    }
  }

  lemma OnlyRootDots(d: Ino, n: string)
    ensures Entry(ROOT_FS, d, n).Some? ==> Dot(n)
  {
  }

  lemma FieldsKeepView(fs: Fs, fs': Fs)
    requires Tree(fs) && SameShape(fs, fs')
    ensures Tree(fs') && View(fs') == View(fs)
  {
    hide TreeOf, IsDir;
    var par :| TreeOf(fs, par);
    SameShapeKeepsTree(fs, par, fs');
    forall p | Normal(p)
      ensures p in View(fs') <==> p in View(fs)
      ensures p in View(fs') ==> View(fs')[p] == View(fs)[p]
    {
      SameWalk(fs, fs', 1, p);
      if p in View(fs) {
        ParentsClosed(fs, par);
        ResolvedPathIsUnique(fs, par, p, ResolveFrom(fs, 1, p).value);
      }
    }
  }

  lemma GrowingStep(profile: Profile, s: Init)
    requires WellFormed(profile) && Growing(profile, s) && Working(s.pc)
    ensures Growing(profile, Next(profile, s)) && Working(Next(profile, s).pc)
  {
    hide Tree, Listed, FileType, MakeEntry, Profile.DefaultPerm, Profile.Owner;
    if s.pc.Make? {
      if s.pc.k < |profile.entries| && profile.entries[s.pc.k].path != [] {
        GrowingMake(profile, s.pc.k, s.fs);
      }
    } else if HasIno(s.pc) {
      var s' := Next(profile, s);
      ModeType(profile, profile.entries[s.pc.k]);
      TypedNodes(s.fs);
      assert SameShape(s.fs, s'.fs);
      FieldsKeepView(s.fs, s'.fs);
      assert Listed(profile, s'.fs) by { SameListed(profile, s.fs, s'.fs); }
    }
  }

  lemma SameListed(profile: Profile, fs: Fs, fs': Fs)
    requires Listed(profile, fs) && View(fs') == View(fs)
    ensures Listed(profile, fs')
  {
    hide View;
  }

  lemma TypedNodes(fs: Fs)
    requires Tree(fs)
    ensures forall i <- fs.inodes :: IsDir(fs.inodes[i].mode) != IsReg(fs.inodes[i].mode)
  {
    hide TreeOf, FileType;
    var par :| TreeOf(fs, par);
    TreeNumbered(fs, par);
  }

  lemma ModeType(profile: Profile, e: ManifestEntry)
    ensures IsDir(profile.ModeFor(e)) == e.dir && IsReg(profile.ModeFor(e)) == !e.dir
  {
    hide Profile.DefaultPerm;
    var p: nat := if e.perm.Some? then e.perm.value else profile.DefaultPerm(e);
    assert p < 0x1000;
    assert (S_IFDIR + p) / 0x1000 == 4 && (S_IFREG + p) / 0x1000 == 8;
  }

  lemma GrowingMake(profile: Profile, k: nat, fs: Fs)
    requires WellFormed(profile) && Tree(fs) && Listed(profile, fs)
    requires k < |profile.entries| && profile.entries[k].path != []
    ensures Growing(profile, Init(MakeEntry(profile.entries[k], k, fs).0, false, MakeEntry(profile.entries[k], k, fs).1))
    ensures Working(MakeEntry(profile.entries[k], k, fs).1)
  {
    hide TreeOf, Listed, FileType, IsDir, View, DoCreate, DoMkdir, BadName, Dot;
    var e := profile.entries[k];
    var parent := FsRefinement.Init(e.path);
    var name := Last(e.path);
    assert e.path == parent + [name] && Normal(e.path);
    assert Normal(parent) by { NormalInit(e.path); }
    ConstModes();
    var op := if e.dir then OpMkdir(DIR_MODE) else OpCreate(FILE_MODE);
    if ResolveFrom(fs, 1, parent).Some? {
      OpRefines(fs, parent, name, op);
      var fs' := MakeEntry(e, k, fs).0;
      assert fs' == RunOp(fs, parent, name, op).0;
      ListedAfter(profile, k, fs, fs');
      if HasIno(MakeEntry(e, k, fs).1) { MadeResolves(profile, k, fs); }
      MadeInode(profile, k, fs, fs');
    }
  }

  lemma MadeResolves(profile: Profile, k: nat, fs: Fs)
    requires k < |profile.entries| && profile.entries[k].path != [] && Normal(profile.entries[k].path)
    requires Tree(fs) && HasIno(MakeEntry(profile.entries[k], k, fs).1)
    ensures var (fs', pc') := MakeEntry(profile.entries[k], k, fs);
            ResolveFrom(fs', 1, profile.entries[k].path) == Some(pc'.ino)
  {
    hide Tree, Normal, ResolveFrom, FileType, IsDir, View, BadName, Dot;
    var e := profile.entries[k];
    var parent := FsRefinement.Init(e.path);
    var name := Last(e.path);
    NormalInit(e.path);
    ConstModes();
    OpRefines(fs, parent, name, if e.dir then OpMkdir(DIR_MODE) else OpCreate(FILE_MODE));
    var fs' := MakeEntry(e, k, fs).0;
    assert parent + [name] == e.path;
    if e.path in View(fs') { InViewIsNormal(fs', e.path); }
  }

  lemma NormalInit(p: Path)
    requires p != [] && Normal(p)
    ensures Normal(FsRefinement.Init(p)) && !Dot(Last(p))
  {
    hide Dot;
    forall n <- FsRefinement.Init(p) ensures !Dot(n) { assert n in p; }
    assert Last(p) in p;
  }

  lemma ConstModes()
    ensures IsDir(DIR_MODE) && IsReg(FILE_MODE)
  {
  }

  lemma ListedAfter(profile: Profile, k: nat, fs: Fs, fs': Fs)
    requires k < |profile.entries| && profile.entries[k].path != [] && Listed(profile, fs)
    requires var e := profile.entries[k];
             View(fs') == View(fs) ||
             exists i: Ino :: View(fs') == View(fs)[e.path := Node(i, e.dir)]
    ensures Listed(profile, fs')
  {
    hide View;
    var e := profile.entries[k];
    forall p <- View(fs') | p != [] ensures IsListed(profile, p, View(fs')[p].dir) {
      if View(fs') != View(fs) {
        var i: Ino :| View(fs') == View(fs)[e.path := Node(i, e.dir)];
        if p == e.path { assert e in profile.entries; }
      }
    }
  }

  lemma MadeInode(profile: Profile, k: nat, fs: Fs, fs': Fs)
    requires WellFormed(profile) && k < |profile.entries| && profile.entries[k].path != []
    requires Tree(fs') && Listed(profile, fs') && MakeEntry(profile.entries[k], k, fs).0 == fs'
    requires MakeEntry(profile.entries[k], k, fs).1.Failed? ||
             ResolveFrom(fs', 1, profile.entries[k].path) == Some(MakeEntry(profile.entries[k], k, fs).1.ino)
    ensures var pc' := MakeEntry(profile.entries[k], k, fs).1;
            HasIno(pc') ==> pc'.k == k && pc'.ino in fs'.inodes && IsDir(fs'.inodes[pc'.ino].mode) == profile.entries[k].dir
  {
    hide TreeOf, FileType, IsDir, DoCreate, DoMkdir, BadName, Dot;
    var e := profile.entries[k];
    var pc' := MakeEntry(e, k, fs).1;
    if HasIno(pc') {
      var par :| TreeOf(fs', par);
      ParentsClosed(fs', par);
      ResolvedPathIsUnique(fs', par, e.path, pc'.ino);
      assert e.path in View(fs');
      assert IsListed(profile, e.path, View(fs')[e.path].dir);
      var f :| f in profile.entries && f.path == e.path && f.dir == View(fs')[e.path].dir;
    }
  }

  /** With a well-formed manifest, the namespace a session starts from is a tree whose
      paths are exactly of the manifest's kinds. */
  lemma {:induction false} CleanRunBuildsTree(profile: Profile, n: nat)
    requires WellFormed(profile) && n >= 4
    ensures Growing(profile, Clean(profile, n)) && Working(Clean(profile, n).pc)
    decreases n
  {
    hide Next, Growing;
    if n == 4 {
      SetupGivesRoot(profile);
      GrowingStart(profile);
    } else {
      CleanRunBuildsTree(profile, n - 1);
      GrowingStep(profile, Clean(profile, n - 1));
    }
  }
}
