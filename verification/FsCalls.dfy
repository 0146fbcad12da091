/** Whole namespace calls: a walk to the parent, other clients' scripts in between, then
    the script. On success such a call is one step of the path map. */
module FsCalls {
  import opened Wrappers
  import opened Inodes
  import opened SessionFs
  import opened FsTree
  import opened FsRefinement
  import opened FsWalk

  /** The script of a call on the directory inode its walk found. */
  function ScriptAt(fs: Fs, d: Ino, name: string, op: Op): (Fs, ScriptReply)
  {
    match op
    case OpCreate(m) => DoCreate(fs, d, name, m)
    case OpMkdir(m) => DoMkdir(fs, d, name, m)
    case OpUnlink => DoUnlink(fs, d, name)
    case OpRmdir => DoRmdir(fs, d, name)
  }

  /** The map version of the call in one snapshot. */
  ghost function MapCall(fs: Fs, parent: Path, name: string, op: Op): (PathMap, Errno)
  {
    MapOp(View(fs), parent, name, op, fs.nextInode + 1, fs.nextInode >= 10000)
  }

  lemma ScriptIsOp(fs: Fs, parent: Path, d: Ino, name: string, op: Op)
    requires ResolveFrom(fs, 1, parent) == Some(d)
    ensures RunOp(fs, parent, name, op) == (ScriptAt(fs, d, name, op).0, ToErrno(ScriptAt(fs, d, name, op).1))
  {
    hide DoCreate, DoMkdir, DoUnlink, DoRmdir, ResolveFrom;
  }

  lemma LiveCall(fs: Fs, parent: Path, d: Ino, name: string, op: Op)
    requires Tree(fs) && Normal(parent) && OpTyped(op) && ResolveFrom(fs, 1, parent) == Some(d)
    ensures var (fs', reply) := ScriptAt(fs, d, name, op);
            Tree(fs') && (View(fs'), ToErrno(reply)) == MapCall(fs, parent, name, op)
  {
    hide Tree, View, MapOp, ScriptAt, ToErrno, RunOp, ResolveFrom, Normal;
    OpRefines(fs, parent, name, op);
    ScriptIsOp(fs, parent, d, name, op);
  }

  /** A script on an inode that is gone changes nothing and can only complain. */
  lemma ScriptOnNothing(fs: Fs, d: Ino, name: string, op: Op)
    requires d !in fs.inodes
    ensures ScriptAt(fs, d, name, op) == (fs, if BadName(name) then InvalidName else NotDirectory)
  {
    hide BadName;
    assert !IsDir(0);
  }

  /** A finished walk to `parent` whose last lookup was not after snapshot `at`. */
  ghost predicate WalkedTo(run: seq<Fs>, parent: Path, times: seq<nat>, visited: seq<Ino>, at: nat)
  {
    && Walked(run, parent, times, visited) && |times| == |parent| && at < |run|
    && (parent != [] ==> times[|parent| - 1] <= at)
  }

  /** When the walk was last right. */
  function Arrival(parent: Path, times: seq<nat>, at: nat): nat
    requires |times| == |parent|
  {
    if parent == [] then at else times[|parent| - 1]
  }

  lemma Arrived(run: seq<Fs>, parent: Path, times: seq<nat>, visited: seq<Ino>, at: nat)
    requires History(run) && Normal(parent) && WalkedTo(run, parent, times, visited, at)
    ensures var s, d := Arrival(parent, times, at), visited[|parent|];
            s <= at && Tree(run[s]) && ResolveFrom(run[s], 1, parent) == Some(d)
            && d in run[s].inodes && d <= run[s].nextInode
  {
    hide Tree, History, ResolveFrom;
    var s, d := Arrival(parent, times, at), visited[|parent|];
    HistoryIsTree(run, s);
    if parent == [] {
      RootResolves(run[s]);
    } else {
      WalkIsAtomicAtLastLookup(run, parent, times, visited);
    }
    ResolvedIsLive(run[s], parent, d);
  }

  lemma RootResolves(fs: Fs)
    ensures ResolveFrom(fs, 1, []) == Some(1)
  {
  }

  lemma StillThere(run: seq<Fs>, parent: Path, times: seq<nat>, visited: seq<Ino>, at: nat)
    requires History(run) && Normal(parent) && WalkedTo(run, parent, times, visited, at)
    requires visited[|parent|] in run[at].inodes
    ensures Tree(run[at]) && ResolveFrom(run[at], 1, parent) == Some(visited[|parent|])
  {
    var s, d := Arrival(parent, times, at), visited[|parent|];
    hide Tree, History, ResolveFrom, Walked;
    Arrived(run, parent, times, visited, at);
    HistoryIsTree(run, at);
    LiveBetween(run, s, at, d);
    PathIsStable(run, s, at, parent, d);
  }

  /** A call whose parent walk and script interleave with any other scripts: if it
      succeeds, then at the moment of its script it is exactly the map operation on the full
      path. So it is if it fails while the parent lives. If the parent was removed meanwhile
      nothing changes, and the parent's path was absent at some moment in between; whether
      the reply is still an atomic call's is settled below. */
  lemma CallIsAtomic(
    run: seq<Fs>, parent: Path, name: string, op: Op, times: seq<nat>, visited: seq<Ino>, at: nat)
    returns (moment: nat)
    requires History(run) && Normal(parent) && OpTyped(op) && WalkedTo(run, parent, times, visited, at)
    ensures var d := visited[|parent|];
            var (fs', reply) := ScriptAt(run[at], d, name, op);
            && Arrival(parent, times, at) <= moment <= at
            && (reply.Inode? ==> d in run[at].inodes)
            && (if d in run[at].inodes then
                  && moment == at && Tree(fs')
                  && (View(fs'), ToErrno(reply)) == MapCall(run[at], parent, name, op)
                else
                  && fs' == run[at] && reply == (if BadName(name) then InvalidName else NotDirectory)
                  && MapCall(run[moment], parent, name, op) == (View(run[moment]), ENOENT))
  {
    var d := visited[|parent|];
    hide Tree, History, ResolveFrom, View, MapCall, ScriptAt, WalkedTo, Normal, BadName, ToErrno;
    if d in run[at].inodes {
      moment := at;
      StillThere(run, parent, times, visited, at);
      LiveCall(run[at], parent, d, name, op);
      InTime(run, parent, times, visited, at);
    } else {
      ScriptOnNothing(run[at], d, name, op);
      moment := ParentGone(run, parent, times, visited, at);
      AbsentParent(run[moment], parent, name, op);
    }
  }

  lemma InTime(run: seq<Fs>, parent: Path, times: seq<nat>, visited: seq<Ino>, at: nat)
    requires WalkedTo(run, parent, times, visited, at)
    ensures Arrival(parent, times, at) <= at
  {
  }

  lemma AbsentParent(fs: Fs, parent: Path, name: string, op: Op)
    requires parent !in View(fs)
    ensures MapCall(fs, parent, name, op) == (View(fs), ENOENT)
  {
    hide View;
  }

  lemma ParentGone(run: seq<Fs>, parent: Path, times: seq<nat>, visited: seq<Ino>, at: nat) returns (moment: nat)
    requires History(run) && Normal(parent) && WalkedTo(run, parent, times, visited, at)
    requires visited[|parent|] !in run[at].inodes
    ensures Arrival(parent, times, at) <= moment <= at && parent !in View(run[moment])
  {
    var s, d := Arrival(parent, times, at), visited[|parent|];
    hide Tree, History, ResolveFrom, View, Walked, WalkedTo, Normal;
    Arrived(run, parent, times, visited, at);
    moment := PathGone(run, s, at, parent, d);
  }

  lemma PathGone(run: seq<Fs>, s: nat, t: nat, p: Path, d: Ino) returns (moment: nat)
    requires History(run) && s <= t < |run| && Normal(p)
    requires ResolveFrom(run[s], 1, p) == Some(d) && d !in run[t].inodes
    ensures s <= moment <= t && p !in View(run[moment])
  {
    hide Tree, History, ResolveFrom, View, Normal, Dot, Entry;
    var last := RemovalMoment(run, s, t, p, d);
    moment := last + 1;
    HistoryIsTree(run, last);
    var c := CallAt(run, moment);
    hide Apply;
    assert run[last] == run[moment - 1];
    RemovedIsAbsent(run[last], c, p, d);
  }

  /** A call that removes an inode leaves nothing at its path. */
  lemma RemovedIsAbsent(fs: Fs, c: Call, p: Path, d: Ino)
    requires Tree(fs) && c.Typed() && Normal(p) && ResolveFrom(fs, 1, p) == Some(d)
    requires d in fs.inodes && d !in Apply(fs, c).inodes
    ensures p !in View(Apply(fs, c))
  {
    hide TreeOf, Apply, Dot, ResolveFrom, PathOf;
    var fs' := Apply(fs, c);
    var par :| TreeOf(fs, par);
    var par' := ApplyKeepsTree(fs, par, c);
    KeysOf(fs, par);
    KeysOf(fs', par');
    ParentsClosed(fs, par);
    ParentsClosed(fs', par');
    ResolvedPathIsUnique(fs, par, p, d);
    if p in View(fs') {
      var i := ResolveFrom(fs', 1, p).value;
      ResolvedPathIsUnique(fs', par', p, i);
      assert d in par && d !in par';
      assert par' == par - {d};
      PathUnderExtension(par', par, i);
      PathInjective(fs, par, p, i, d);
    }
  }

  lemma KeysOf(fs: Fs, par: Parents)
    requires TreeOf(fs, par)
    ensures par.Keys == fs.inodes.Keys - {1} && 1 in fs.inodes
  {
    hide DotsOk, LinksOk, EntriesOk;
  }

  /** A call whose parent walk reports ENOENT is right at a moment of that walk: the map
      operation would have failed with ENOENT there. */
  lemma FailedCallIsJustified(
    run: seq<Fs>, found: Path, missing: string, rest: Path, name: string, op: Op, times: seq<nat>, visited: seq<Ino>)
    returns (moment: nat)
    requires History(run) && Normal(found + [missing] + rest) && |times| == |found| + 1
    requires Walked(run, found, times, visited) && Entry(run[times[|found|]], visited[|found|], missing).None?
    ensures times[0] <= moment <= times[|found|]
    ensures MapCall(run[moment], found + [missing] + rest, name, op) == (View(run[moment]), ENOENT)
  {
    hide Tree, History, ResolveFrom, View, Dot, Entry;
    assert forall n <- found + [missing] :: n in found + [missing] + rest;
    moment := FailedWalkIsAtomicSomewhere(run, found, missing, times, visited);
    ResolveAppend(run[moment], 1, found + [missing], rest);
    Unresolved(run[moment], found + [missing] + rest);
    AbsentParent(run[moment], found + [missing] + rest, name, op);
  }

  lemma Unresolved(fs: Fs, p: Path)
    requires ResolveFrom(fs, 1, p).None?
    ensures p !in View(fs)
  {
  }

  // ---- When a reply is justified ------------------------------------------------------------

  /** Snapshot `m` justifies what the script did in snapshot `at`: a success is the map
      operation then and there; an error changes nothing, and the map operation gives the
      same error in snapshot `m`. */
  ghost predicate Justifies(run: seq<Fs>, m: nat, at: nat, parent: Path, d: Ino, name: string, op: Op)
    requires m < |run| && at < |run|
  {
    var (fs', reply) := ScriptAt(run[at], d, name, op);
    if reply.Inode? then m == at && (View(fs'), OK) == MapCall(run[at], parent, name, op)
    else fs' == run[at] && (View(run[m]), ToErrno(reply)) == MapCall(run[m], parent, name, op)
  }

  ghost predicate JustifiedWithin(
    run: seq<Fs>, start: nat, at: nat, parent: Path, d: Ino, name: string, op: Op)
    requires at < |run|
  {
    exists m | start <= m <= at :: Justifies(run, m, at, parent, d, name, op)
  }

  /** The parent's path names a file; or the call is a rmdir and its own path does. */
  ghost predicate FileInTheWay(fs: Fs, parent: Path, name: string, op: Op)
  {
    parent in View(fs) &&
    (!View(fs)[parent].dir || (op.OpRmdir? && parent + [name] in View(fs) && !View(fs)[parent + [name]].dir))
  }

  ghost predicate FileWithin(run: seq<Fs>, start: nat, at: nat, parent: Path, name: string, op: Op)
    requires at < |run|
  {
    exists m | start <= m <= at :: FileInTheWay(run[m], parent, name, op)
  }

  lemma NotDirWhen(fs: Fs, parent: Path, name: string, op: Op)
    requires !BadName(name)
    ensures (View(fs), ENOTDIR) == MapCall(fs, parent, name, op) <==> FileInTheWay(fs, parent, name, op)
  {
    hide View, BadName;
  }

  lemma BadNameAnywhere(fs: Fs, parent: Path, name: string, op: Op)
    requires BadName(name) && parent in View(fs)
    ensures (View(fs), EINVAL) == MapCall(fs, parent, name, op)
  {
    hide View, BadName;
  }

  lemma FailureKeepsAll(fs: Fs, d: Ino, name: string, op: Op)
    ensures !ScriptAt(fs, d, name, op).1.Inode? ==> ScriptAt(fs, d, name, op).0 == fs
    ensures ScriptAt(fs, d, name, op).1.Inode? <==> ToErrno(ScriptAt(fs, d, name, op).1) == OK
  {
    hide BadName, IsDir;
  }

  /** The reply of a call that began at `start` is justified by some moment of it exactly if
      the parent its walk found still lives at the script, or the name is bad, or at some
      moment of the call a file was in the way. Otherwise the parent was removed after the
      walk and the call's ENOTDIR is the reply of no atomic call. */
  lemma ReplyJustifiedExactlyWhen(
    run: seq<Fs>, parent: Path, name: string, op: Op, times: seq<nat>, visited: seq<Ino>, start: nat, at: nat)
    requires History(run) && Normal(parent) && OpTyped(op) && WalkedTo(run, parent, times, visited, at)
    requires start <= Arrival(parent, times, at)
    ensures var d := visited[|parent|];
            JustifiedWithin(run, start, at, parent, d, name, op) <==>
            d in run[at].inodes || BadName(name) || FileWithin(run, start, at, parent, name, op)
  {
    var d := visited[|parent|];
    InTime(run, parent, times, visited, at);
    hide History, WalkedTo, Normal, BadName, Justifies, FileWithin;
    if d in run[at].inodes {
      LiveIsJustified(run, parent, name, op, times, visited, at);
    } else if BadName(name) {
      BadNameIsJustified(run, parent, name, op, times, visited, at);
    } else {
      GoodNameExactlyWhen(run, start, at, parent, d, name, op);
    }
  }

  lemma GoodNameExactlyWhen(run: seq<Fs>, start: nat, at: nat, parent: Path, d: Ino, name: string, op: Op)
    requires at < |run| && d !in run[at].inodes && !BadName(name)
    ensures JustifiedWithin(run, start, at, parent, d, name, op) <==> FileWithin(run, start, at, parent, name, op)
  {
    hide View, BadName, ScriptAt, FileInTheWay, MapCall;
    ScriptOnNothing(run[at], d, name, op);
    forall m | start <= m <= at
      ensures Justifies(run, m, at, parent, d, name, op) <==> FileInTheWay(run[m], parent, name, op)
    {
      NotDirWhen(run[m], parent, name, op);
    }
  }

  lemma LiveIsJustified(
    run: seq<Fs>, parent: Path, name: string, op: Op, times: seq<nat>, visited: seq<Ino>, at: nat)
    requires History(run) && Normal(parent) && OpTyped(op) && WalkedTo(run, parent, times, visited, at)
    requires visited[|parent|] in run[at].inodes
    ensures Justifies(run, at, at, parent, visited[|parent|], name, op)
  {
    var d := visited[|parent|];
    hide Tree, History, View, WalkedTo, Normal, ScriptAt, MapCall, ToErrno, ResolveFrom;
    StillThere(run, parent, times, visited, at);
    LiveCall(run[at], parent, d, name, op);
    FailureKeepsAll(run[at], d, name, op);
  }

  lemma BadNameIsJustified(
    run: seq<Fs>, parent: Path, name: string, op: Op, times: seq<nat>, visited: seq<Ino>, at: nat)
    requires History(run) && Normal(parent) && WalkedTo(run, parent, times, visited, at)
    requires visited[|parent|] !in run[at].inodes && BadName(name)
    ensures Arrival(parent, times, at) <= at
    ensures Justifies(run, Arrival(parent, times, at), at, parent, visited[|parent|], name, op)
  {
    var s, d := Arrival(parent, times, at), visited[|parent|];
    InTime(run, parent, times, visited, at);
    hide *;
    Arrived(run, parent, times, visited, at);
    ResolvesIffInView(run[s], parent);
    BadNameInPlace(run, s, at, parent, d, name, op);
  }

  lemma BadNameInPlace(run: seq<Fs>, m: nat, at: nat, parent: Path, d: Ino, name: string, op: Op)
    requires m < |run| && at < |run| && d !in run[at].inodes && BadName(name) && parent in View(run[m])
    ensures Justifies(run, m, at, parent, d, name, op)
  {
    hide View, BadName, ScriptAt, MapCall;
    BadNameAnywhere(run[m], parent, name, op);
    ScriptOnNothing(run[at], d, name, op);
  }

  const MADE: Fs := Apply(ROOT_FS, Call.Mkdir(1, "a", 16877))
  const GONE: Fs := Apply(MADE, Call.Rmdir(1, "a"))
  const WITNESS: seq<Fs> := [ROOT_FS, MADE, GONE]

  lemma WitnessHistory()
    ensures History(WITNESS)
  {
    var mkdir, rmdir := Call.Mkdir(1, "a", 16877), Call.Rmdir(1, "a");
    assert mkdir.Typed() && rmdir.Typed();
    hide TreeOf, Apply;
    StepsOfCalls(ROOT_FS, MADE, GONE, mkdir, rmdir);
    RootIsTree();
    ThreeSnapshots(ROOT_FS, MADE, GONE);
  }

  lemma WitnessWalk()
    ensures WalkedTo(WITNESS, ["a"], [1], [1, 2], 2)
  {
    hide Apply, Entry;
    MadeAndGone(MADE, GONE);
  }

  lemma WitnessIsNotJustified()
    ensures !BadName("x") && 2 !in GONE.inodes
    ensures !FileWithin(WITNESS, 1, 2, ["a"], "x", OpCreate(33188))
    ensures MapCall(MADE, ["a"], "x", OpCreate(33188)).1 == OK
    ensures MapCall(GONE, ["a"], "x", OpCreate(33188)) == (View(GONE), ENOENT)
  {
    hide Apply, View, MapCall, FileInTheWay, BadName;
    PlainNames();
    MadeAndGone(MADE, GONE);
    NamesInView(MADE, GONE);
    NoFileInTheWay(MADE, GONE);
    AbsentParent(GONE, ["a"], "x", OpCreate(33188));
    RoomForX(MADE);
    assert WITNESS[1] == MADE && WITNESS[2] == GONE;
  }

  /** Such a call exists: "a" is made, a walk reaches it, "a" is removed, and the creation of
      "x" in it answers ENOTDIR, where the map operation succeeds before the removal and
      gives ENOENT after it. */
  lemma RemovedParentIsNotAtomic()
    ensures History(WITNESS) && WalkedTo(WITNESS, ["a"], [1], [1, 2], 2) && Arrival(["a"], [1], 2) == 1
    ensures ScriptAt(WITNESS[2], 2, "x", OpCreate(33188)).1 == NotDirectory
    ensures !JustifiedWithin(WITNESS, 1, 2, ["a"], 2, "x", OpCreate(33188))
    ensures MapCall(WITNESS[1], ["a"], "x", OpCreate(33188)).1 == OK
    ensures MapCall(WITNESS[2], ["a"], "x", OpCreate(33188)) == (View(WITNESS[2]), ENOENT)
  {
    PlainNames();
    assert Normal(["a"]) && IsReg(33188);
    hide History, WalkedTo, Normal, Apply, View, MapCall, ScriptAt, FileWithin, JustifiedWithin, BadName;
    WitnessHistory();
    WitnessWalk();
    WitnessIsNotJustified();
    ScriptOnNothing(GONE, 2, "x", OpCreate(33188));
    ReplyJustifiedExactlyWhen(WITNESS, ["a"], "x", OpCreate(33188), [1], [1, 2], 1, 2);
  }

  lemma StepsOfCalls(a: Fs, b: Fs, c: Fs, first: Call, second: Call)
    requires first.Typed() && second.Typed() && b == Apply(a, first) && c == Apply(b, second)
    ensures Step(a, b) && Step(b, c)
  {
    hide Apply, Call.Typed;
  }

  lemma ThreeSnapshots(a: Fs, b: Fs, c: Fs)
    requires Tree(a) && Step(a, b) && Step(b, c)
    ensures History([a, b, c])
  {
    hide Tree, Step;
  }

  lemma NoFileInTheWay(made: Fs, gone: Fs)
    requires ["a"] in View(made) && View(made)[["a"]].dir && ["a"] !in View(gone)
    ensures !FileInTheWay(made, ["a"], "x", OpCreate(33188)) && !FileInTheWay(gone, ["a"], "x", OpCreate(33188))
  {
    hide View;
  }

  lemma PlainNames()
    ensures !BadName("a") && !BadName("x") && !Dot("a") && !Dot("x")
  {
    assert |"."| != |".."|;
    assert "a"[0] != '.' && "x"[0] != '.';
  }

  lemma MadeAndGone(made: Fs, gone: Fs)
    requires made == Apply(ROOT_FS, Call.Mkdir(1, "a", 16877)) && gone == Apply(made, Call.Rmdir(1, "a"))
    ensures Entry(made, 1, "a") == Some(2) && made.nextInode == 2 && 2 in made.inodes && IsDir(made.inodes[2].mode)
    ensures Entry(made, 2, "x").None? && Entry(gone, 1, "a").None? && 2 !in gone.inodes
  {
    PlainNames();
    assert IsDir(16877);
    assert Entry(ROOT_FS, 1, "a").None?;
    assert Entry(made, 1, "a") == Some(2);
    assert made.dirs[2] == map["." := 2, ".." := 1];
    assert made.dirs[2].Keys == {".", ".."};
    assert |made.dirs[2]| <= 2;
  }

  lemma NamesInView(made: Fs, gone: Fs)
    requires Entry(made, 1, "a") == Some(2) && 2 in made.inodes && IsDir(made.inodes[2].mode)
    requires Entry(made, 2, "x").None? && Entry(gone, 1, "a").None?
    ensures ["a"] in View(made) && View(made)[["a"]].dir && ["a", "x"] !in View(made) && ["a"] !in View(gone)
  {
    hide IsDir;
    PlainNames();
    assert ["a"][1..] == [] && ["a", "x"][1..] == ["x"] && ["x"][1..] == [];
    assert ResolveFrom(made, 1, ["a"]) == ResolveFrom(made, 2, []);
    assert ResolveFrom(made, 1, ["a", "x"]) == ResolveFrom(made, 2, ["x"]);
    assert Normal(["a"]);
  }

  lemma RoomForX(made: Fs)
    requires ["a"] in View(made) && View(made)[["a"]].dir && ["a", "x"] !in View(made) && made.nextInode == 2
    ensures MapCall(made, ["a"], "x", OpCreate(33188)).1 == OK
  {
    hide View;
    PlainNames();
    assert ["a"] + ["x"] == ["a", "x"];
  }
}
