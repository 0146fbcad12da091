/** A finished initialisation has built exactly the manifest. */
module FsInitComplete {
  import opened Wrappers
  import opened Inodes
  import opened SessionFs
  import opened FsTree
  import opened FsRefinement
  import opened FsInit

  /** The paths of the first `k` manifest entries exist. */
  ghost predicate Built(profile: Profile, fs: Fs, k: nat)
  {
    forall j | 0 <= j < k && j < |profile.entries| :: profile.entries[j].path in View(fs)
  }

  /** How many entries the initialiser has dealt with. */
  function Reached(profile: Profile, pc: Pc): nat
  {
    match pc
    case Make(k) => k
    case StateField(k, _) => k + 1
    case ClassField(k, _) => k + 1
    case Attributes(k, _) => k + 1
    case Finish => |profile.entries|
    case Done => |profile.entries|
    case _ => 0
  }

  /** Creating and making directories never takes a path away. */
  lemma MapOpKeepsPaths(view: PathMap, parent: Path, name: string, op: Op, newIno: Ino, full: bool)
    requires op.OpCreate? || op.OpMkdir?
    ensures forall p <- view :: p in MapOp(view, parent, name, op, newIno, full).0
  {
    hide BadName;
  }

  lemma MakeIsOp(e: ManifestEntry, k: nat, fs: Fs)
    requires e.path != [] && ResolveFrom(fs, 1, FsRefinement.Init(e.path)).Some?
    ensures MakeEntry(e, k, fs).0 ==
            RunOp(fs, FsRefinement.Init(e.path), Last(e.path), if e.dir then OpMkdir(DIR_MODE) else OpCreate(FILE_MODE)).0
  {
    hide DoCreate, DoMkdir, ResolveFrom;
  }

  lemma MakeKeepsPaths(e: ManifestEntry, k: nat, fs: Fs)
    requires Tree(fs) && e.path != [] && Normal(e.path)
    ensures forall p <- View(fs) :: p in View(MakeEntry(e, k, fs).0)
  {
    var parent := FsRefinement.Init(e.path);
    var op := if e.dir then OpMkdir(DIR_MODE) else OpCreate(FILE_MODE);
    NormalInit(e.path);
    ConstModes();
    if ResolveFrom(fs, 1, parent).Some? {
      hide Tree, View, MapOp, RunOp, MakeEntry, ResolveFrom;
      OpRefines(fs, parent, Last(e.path), op);
      MakeIsOp(e, k, fs);
      MapOpKeepsPaths(View(fs), parent, Last(e.path), op, fs.nextInode + 1, fs.nextInode >= 10000);
    }
  }

  lemma MakeAddsPath(profile: Profile, k: nat, fs: Fs)
    requires WellFormed(profile) && Tree(fs) && k < |profile.entries| && profile.entries[k].path != []
    ensures var (fs', pc') := MakeEntry(profile.entries[k], k, fs);
            && (forall p <- View(fs) :: p in View(fs'))
            && (HasIno(pc') ==> profile.entries[k].path in View(fs'))
  {
    hide Tree, View, MakeEntry;
    var e := profile.entries[k];
    MakeKeepsPaths(e, k, fs);
    if HasIno(MakeEntry(e, k, fs).1) {
      MadeResolves(profile, k, fs);
      ResolvedIsInView(MakeEntry(e, k, fs).0, e.path);
    }
  }

  lemma ResolvedIsInView(fs: Fs, p: Path)
    requires Normal(p) && ResolveFrom(fs, 1, p).Some?
    ensures p in View(fs)
  {
  }

  lemma StepBuilds(profile: Profile, s: Init)
    requires WellFormed(profile) && Growing(profile, s) && Working(s.pc)
    requires Built(profile, s.fs, Reached(profile, s.pc))
    ensures Built(profile, Next(profile, s).fs, Reached(profile, Next(profile, s).pc))
  {
    hide Tree, Listed, FileType, MakeEntry, View, Profile.DefaultPerm, Profile.Owner;
    if s.pc.Make? && s.pc.k < |profile.entries| {
      if profile.entries[s.pc.k].path == [] {
        ViewIsPrefixClosedAtRoot(s.fs);
      } else {
        MakeAddsPath(profile, s.pc.k, s.fs);
        Unfailing(profile, s);
      }
    } else if HasIno(s.pc) {
      ModeType(profile, profile.entries[s.pc.k]);
      TypedNodes(s.fs);
      assert SameShape(s.fs, Next(profile, s).fs);
      FieldsKeepView(s.fs, Next(profile, s).fs);
    }
  }

  /** Making an entry either fixes its inode or fails. */
  lemma Unfailing(profile: Profile, s: Init)
    requires s.pc.Make? && s.pc.k < |profile.entries| && profile.entries[s.pc.k].path != []
    ensures var pc' := MakeEntry(profile.entries[s.pc.k], s.pc.k, s.fs).1;
            (HasIno(pc') && pc'.k == s.pc.k) || pc'.Failed?
  {
    hide DoCreate, DoMkdir;
  }

  lemma ViewIsPrefixClosedAtRoot(fs: Fs)
    requires Tree(fs)
    ensures [] in View(fs)
  {
    hide Tree;
    assert Normal([]) && ResolveFrom(fs, 1, []) == Some(1);
  }

  lemma {:induction false} CleanRunBuilds(profile: Profile, n: nat)
    requires WellFormed(profile) && n >= 4
    ensures Built(profile, Clean(profile, n).fs, Reached(profile, Clean(profile, n).pc))
    decreases n
  {
    hide Next, Growing, View, Reached;
    if n == 4 {
      SetupGivesRoot(profile);
      NothingReached(profile);
    } else {
      CleanRunBuilds(profile, n - 1);
      CleanRunBuildsTree(profile, n - 1);
      StepBuilds(profile, Clean(profile, n - 1));
    }
  }

  lemma NothingReached(profile: Profile)
    ensures Reached(profile, Make(0)) == 0
  {
  }

  lemma EarlyIsNotDone(profile: Profile, n: nat)
    requires Clean(profile, n).pc.Done?
    ensures n >= 4
  {
    assert Clean(profile, 0) == EMPTY;
    assert Clean(profile, 1) == Next(profile, EMPTY);
    assert Clean(profile, 2) == Next(profile, Clean(profile, 1));
    assert Clean(profile, 3) == Next(profile, Clean(profile, 2));
  }

  /** A build that completes has a clean run whose store it has. */
  lemma CompletesAsClean(profile: Profile, crash: seq<bool>) returns (n: nat)
    requires Interrupted(profile, crash).pc.Done?
    ensures Clean(profile, n).pc.Done? && Interrupted(profile, crash).fs == Clean(profile, n).fs
  {
    hide Next, Overlay;
    var s := Interrupted(profile, crash);
    InterruptedIsLaidOver(profile, crash);
    if s.initialized {
      n :| Clean(profile, n).pc.Done? && s.fs == Clean(profile, n).fs;
    } else {
      var j: nat, m: nat :| FsInit.At(profile, s, j, m);
      HaltedStays(profile, j, m);
      OverlayOfItself(Clean(profile, j), s.fs);
      n := j;
    }
  }

  /** However often the build was interrupted, the finished namespace of a well-formed
      manifest is a tree with exactly the root and the manifest's paths, each of its kind. */
  lemma FinishedIsManifest(profile: Profile, crash: seq<bool>, p: Path)
    requires WellFormed(profile) && Interrupted(profile, crash).pc.Done?
    ensures var fs := Interrupted(profile, crash).fs;
            && Tree(fs)
            && (p in View(fs) <==> p == [] || exists e <- profile.entries :: e.path == p)
            && (p in View(fs) && p != [] ==> IsListed(profile, p, View(fs)[p].dir))
  {
    hide Clean, Interrupted, View, Tree, Next;
    var n := CompletesAsClean(profile, crash);
    CleanIsManifest(profile, n, p);
  }

  lemma CleanIsManifest(profile: Profile, n: nat, p: Path)
    requires WellFormed(profile) && Clean(profile, n).pc.Done?
    ensures var fs := Clean(profile, n).fs;
            && Tree(fs)
            && (p in View(fs) <==> p == [] || exists e <- profile.entries :: e.path == p)
            && (p in View(fs) && p != [] ==> IsListed(profile, p, View(fs)[p].dir))
  {
    hide Clean, View, Tree, Next;
    var fs := Clean(profile, n).fs;
    EarlyIsNotDone(profile, n);
    CleanRunBuildsTree(profile, n);
    CleanRunBuilds(profile, n);
    ViewIsPrefixClosedAtRoot(fs);
    if p in View(fs) && p != [] {
      assert IsListed(profile, p, View(fs)[p].dir);
    }
    if e :| e in profile.entries && e.path == p {
      var j :| 0 <= j < |profile.entries| && profile.entries[j] == e;
      assert profile.entries[j].path in View(fs);
    }
  }

  // ---- Once is enough -------------------------------------------------------------------------

  lemma {:induction false} DoneIsMarked(profile: Profile, crash: seq<bool>)
    ensures Interrupted(profile, crash).pc.Done? ==> Interrupted(profile, crash).initialized
    decreases |crash|
  {
    hide DoCreate, DoMkdir, ResolveFrom;
    if crash != [] { DoneIsMarked(profile, crash[..|crash| - 1]); }
  }

  lemma {:induction false} MarkedStays(profile: Profile, start: Init, crash: seq<bool>)
    requires start.initialized && (start.pc.Start? || start.pc.Done?)
    ensures var s := Attempts(profile, start, crash);
            s.fs == start.fs && s.initialized && (s.pc.Start? || s.pc.Done?)
    decreases |crash|
  {
    hide MakeEntry;
    if crash != [] { MarkedStays(profile, start, crash[..|crash| - 1]); }
  }

  /** A finished build is marked as such: no further attempt, crash or restart changes
      anything, and an attempt that is left alone ends at its first command. */
  lemma FinishedForGood(profile: Profile, crash: seq<bool>, more: seq<bool>)
    requires Interrupted(profile, crash).pc.Done?
    ensures Interrupted(profile, crash + more).fs == Interrupted(profile, crash).fs
    ensures Next(profile, Interrupted(profile, crash + more)).pc.Done?
  {
    hide Interrupted, Attempts, MakeEntry;
    DoneIsMarked(profile, crash);
    AttemptsGoOn(profile, crash, more);
    MarkedStays(profile, Interrupted(profile, crash), more);
  }
}
