/** The tables refine a prefix-closed map from absolute paths to nodes. */
module FsRefinement {
  import opened Wrappers
  import opened Inodes
  import opened SessionFs
  import opened FsTree

  type Path = seq<string>

  datatype Node = Node(ino: Ino, dir: bool)

  type PathMap = imap<Path, Node>

  predicate Normal(p: Path) { forall n <- p :: !Dot(n) }

  /** What a session sees: every dot-free path the walk resolves. */
  ghost function View(fs: Fs): PathMap
  {
    imap p: Path | Normal(p) && ResolveFrom(fs, 1, p).Some? ::
      Node(ResolveFrom(fs, 1, p).value, IsDir(ModeOf(fs.inodes, ResolveFrom(fs, 1, p).value)))
  }

  // ---- Walks and parent chains ------------------------------------------------

  function Last(p: Path): string requires p != [] { p[|p| - 1] }

  function Init(p: Path): Path requires p != [] { p[..|p| - 1] }

  lemma {:induction false} ResolveAppend(fs: Fs, cur: Ino, p: Path, q: Path)
    ensures ResolveFrom(fs, cur, p + q) ==
            match ResolveFrom(fs, cur, p) { case None => None case Some(i) => ResolveFrom(fs, i, q) }
    decreases |p|
  {
    if p == [] {
      assert p + q == q;
    } else {
      assert (p + q)[1..] == p[1..] + q;
      var found := Entry(fs, cur, p[0]);
      if found.Some? && found.value != 0 { ResolveAppend(fs, found.value, p[1..], q); }
    }
  }

  lemma ResolveLast(fs: Fs, p: Path)
    requires p != []
    ensures ResolveFrom(fs, 1, p) ==
            match ResolveFrom(fs, 1, Init(p)) {
              case None => None
              case Some(i) => if Entry(fs, i, Last(p)) == Some(0) then None else Entry(fs, i, Last(p))
            }
  {
    assert p == Init(p) + [Last(p)];
    ResolveAppend(fs, 1, Init(p), [Last(p)]);
    match ResolveFrom(fs, 1, Init(p))
    case None =>
    case Some(i) =>
      var found := Entry(fs, i, Last(p));
      if found.Some? { assert ResolveFrom(fs, found.value, []) == Some(found.value); }
  }

  /** The one path under which inode `i` is reachable. */
  ghost function PathOf(par: Parents, i: Ino): Path
    requires forall k <- par :: par[k].0 < k && (par[k].0 == 1 || par[k].0 in par)
    requires i == 1 || i in par
    decreases i
  {
    if i == 1 || i !in par then [] else PathOf(par, par[i].0) + [par[i].1]
  }

  lemma ParentsClosed(fs: Fs, par: Parents)
    requires TreeOf(fs, par)
    ensures forall k <- par :: par[k].0 < k && (par[k].0 == 1 || par[k].0 in par)
  {
    hide FileType, Dot, BadName, LinksOk, DotsOk, EntriesOk;
  }

  lemma ParentFacts(fs: Fs, par: Parents, i: Ino)
    requires TreeOf(fs, par) && i in fs.inodes && i != 1
    ensures i > 1 && i in par && par[i].0 in fs.inodes && !Dot(par[i].1) && Entry(fs, par[i].0, par[i].1) == Some(i)
  {
    hide FileType, Dot, LinksOk, DotsOk, EntriesOk;
    DotNames();
  }

  lemma {:induction false} PathResolves(fs: Fs, par: Parents, i: Ino)
    requires TreeOf(fs, par) && i in fs.inodes
    requires forall k <- par :: par[k].0 < k && (par[k].0 == 1 || par[k].0 in par)
    ensures i == 1 || i in par
    ensures Normal(PathOf(par, i)) && ResolveFrom(fs, 1, PathOf(par, i)) == Some(i)
    decreases i
  {
    hide TreeOf, FileType, Dot, BadName, Entry;
    if i != 1 {
      ParentFacts(fs, par, i);
      var (d, n) := par[i];
      PathResolves(fs, par, d);
      var p := PathOf(par, i);
      assert Init(p) == PathOf(par, d) && Last(p) == n;
      assert p == Init(p) + [n];
      ResolveLast(fs, p);
    }
  }

  /** Each live inode is reachable by exactly one dot-free path. */
  lemma {:induction false} ResolvedPathIsUnique(fs: Fs, par: Parents, p: Path, i: Ino)
    requires TreeOf(fs, par) && Normal(p) && ResolveFrom(fs, 1, p) == Some(i)
    requires forall k <- par :: par[k].0 < k && (par[k].0 == 1 || par[k].0 in par)
    ensures i in fs.inodes && p == PathOf(par, i)
    decreases |p|
  {
    hide FileType, Dot, LinksOk, DotsOk, ParentsOk, DirsMatch;
    if p == [] {
    } else {
      ResolveLast(fs, p);
      var d := ResolveFrom(fs, 1, Init(p)).value;
      ResolvedPathIsUnique(fs, par, Init(p), d);
      assert Entry(fs, d, Last(p)) == Some(i);
      assert par[i] == (d, Last(p));
      assert i in fs.inodes by { ParentKeys(fs, par); }
      assert i != 1 by { ParentKeys(fs, par); }
      assert p == Init(p) + [Last(p)];
    }
  }

  lemma ParentKeys(fs: Fs, par: Parents)
    requires ParentsOk(fs, par)
    ensures par.Keys == fs.inodes.Keys - {1}
  {
  }

  /** The view in terms of the parent table. */
  lemma ViewByParents(fs: Fs, par: Parents, p: Path)
    requires TreeOf(fs, par)
    requires forall k <- par :: par[k].0 < k && (par[k].0 == 1 || par[k].0 in par)
    ensures p in View(fs) <==> exists i <- fs.inodes :: (i == 1 || i in par) && PathOf(par, i) == p
    ensures p in View(fs) ==>
              && View(fs)[p].ino in fs.inodes
              && (View(fs)[p].ino == 1 || View(fs)[p].ino in par)
              && PathOf(par, View(fs)[p].ino) == p
              && View(fs)[p].dir == IsDir(fs.inodes[View(fs)[p].ino].mode)
  {
    hide TreeOf, FileType, Dot;
    if p in View(fs) {
      ResolvedPathIsUnique(fs, par, p, ResolveFrom(fs, 1, p).value);
      LiveHasParent(fs, par);
    }
    forall i <- fs.inodes | (i == 1 || i in par) && PathOf(par, i) == p ensures p in View(fs) {
      PathResolves(fs, par, i);
    }
  }

  lemma LiveHasParent(fs: Fs, par: Parents)
    requires TreeOf(fs, par)
    ensures forall i <- fs.inodes :: i == 1 || i in par
    ensures forall i <- par :: i in fs.inodes
    ensures 1 in fs.inodes && 1 !in par
  {
    hide Numbered, DirsMatch, EntriesOk, DotsOk, LinksOk;
    assert Numbered(fs);
    NumberedRoot(fs);
  }

  lemma NumberedRoot(fs: Fs)
    requires Numbered(fs)
    ensures 1 in fs.inodes
  {
  }

  /** The view is prefix-closed and every proper prefix is a directory. */
  lemma ViewIsPrefixClosed(fs: Fs, p: Path)
    requires Tree(fs) && p in View(fs)
    ensures [] in View(fs) && View(fs)[[]] == Node(1, true)
    ensures p != [] ==> Init(p) in View(fs) && View(fs)[Init(p)].dir
  {
    hide FileType, Dot, LinksOk, DotsOk, EntriesOk, ParentsOk;
    var par :| TreeOf(fs, par);
    assert ResolveFrom(fs, 1, []) == Some(1);
    if p != [] {
      ResolveLast(fs, p);
      var d := ResolveFrom(fs, 1, Init(p)).value;
      EntryIsInDir(fs);
      assert d in fs.dirs;
    }
  }

  // ---- The map version of each operation ------------------------------------------

  datatype Errno = OK | ENOENT | EINVAL | ENOTDIR | EEXIST | ENOSPC | EISDIR | ENOTEMPTY

  /** create/mkdir on the map: enter a fresh node as `name` under `parent`. */
  ghost function MapAdd(m: PathMap, parent: Path, name: string, node: Node, full: bool): (PathMap, Errno)
  {
    if parent !in m then (m, ENOENT)
    else if BadName(name) then (m, EINVAL)
    else if !m[parent].dir then (m, ENOTDIR)
    else if parent + [name] in m then (m, EEXIST)
    else if full then (m, ENOSPC)
    else (m[parent + [name] := node], OK)
  }

  ghost function Without(m: PathMap, p: Path): PathMap
  {
    imap q | q in m && q != p :: m[q]
  }

  ghost function MapUnlink(m: PathMap, parent: Path, name: string): (PathMap, Errno)
  {
    if parent !in m then (m, ENOENT)
    else if BadName(name) then (m, EINVAL)
    else if !m[parent].dir then (m, ENOTDIR)
    else if parent + [name] !in m then (m, ENOENT)
    else if m[parent + [name]].dir then (m, EISDIR)
    else (Without(m, parent + [name]), OK)
  }

  ghost function MapRmdir(m: PathMap, parent: Path, name: string): (PathMap, Errno)
  {
    if parent !in m then (m, ENOENT)
    else if BadName(name) then (m, EINVAL)
    else if !m[parent].dir then (m, ENOTDIR)
    else if parent + [name] !in m then (m, ENOENT)
    else if !m[parent + [name]].dir then (m, ENOTDIR)
    else if exists child <- m :: child != [] && Init(child) == parent + [name] then (m, ENOTEMPTY)
    else (Without(m, parent + [name]), OK)
  }

  function ToErrno(reply: ScriptReply): Errno
  {
    match reply
    case Inode(_) => OK
    case Exists => EEXIST
    case Absent => ENOENT
    case NotEmpty => ENOTEMPTY
    case InvalidName => EINVAL
    case NotDirectory => ENOTDIR
    case IsDirectory => EISDIR
    case NoSpace => ENOSPC
  }

  /** A namespace call by path: walk to the parent, then run the script on its inode. */
  datatype Op = OpCreate(mode: nat) | OpMkdir(mode: nat) | OpUnlink | OpRmdir

  function RunOp(fs: Fs, parent: Path, name: string, op: Op): (Fs, Errno)
  {
    var d := ResolveFrom(fs, 1, parent);
    if d.None? then (fs, ENOENT)
    else
      var (fs', reply) := match op
        case OpCreate(m) => DoCreate(fs, d.value, name, m)
        case OpMkdir(m) => DoMkdir(fs, d.value, name, m)
        case OpUnlink => DoUnlink(fs, d.value, name)
        case OpRmdir => DoRmdir(fs, d.value, name);
      (fs', ToErrno(reply))
  }

  ghost function MapOp(m: PathMap, parent: Path, name: string, op: Op, newIno: Ino, full: bool): (PathMap, Errno)
  {
    match op
    case OpCreate(_) => MapAdd(m, parent, name, Node(newIno, false), full)
    case OpMkdir(_) => MapAdd(m, parent, name, Node(newIno, true), full)
    case OpUnlink => MapUnlink(m, parent, name)
    case OpRmdir => MapRmdir(m, parent, name)
  }

  predicate OpTyped(op: Op)
  {
    (op.OpCreate? ==> IsReg(op.mode)) && (op.OpMkdir? ==> IsDir(op.mode))
  }

  // ---- Views before and after ---------------------------------------------------

  ghost predicate GoodParents(par: Parents)
  {
    forall k <- par :: par[k].0 < k && (par[k].0 == 1 || par[k].0 in par)
  }

  lemma {:induction false} PathUnderExtension(par: Parents, par': Parents, i: Ino)
    requires GoodParents(par) && GoodParents(par')
    requires forall k <- par :: k in par' && par'[k] == par[k]
    requires i == 1 || i in par
    ensures PathOf(par', i) == PathOf(par, i)
    decreases i
  {
    if i != 1 { PathUnderExtension(par, par', par[i].0); }
  }

  lemma AddedView(fs: Fs, par: Parents, fs': Fs, parent: Path, d: Ino, name: string, ino: Ino, dir: bool)
    requires TreeOf(fs, par) && Normal(parent) && ResolveFrom(fs, 1, parent) == Some(d)
    requires Added(fs, fs', d, name, ino, dir)
    ensures View(fs') == View(fs)[parent + [name] := Node(ino, dir)]
  {
    hide TreeOf, Added, View, PathOf, Normal, ResolveFrom;
    AddedKeepsTree(fs, par, fs', d, name, ino, dir);
    AddedPaths(fs, par, fs', parent, d, name, ino, dir);
    forall p
      ensures p in View(fs') <==> p in View(fs) || p == parent + [name]
      ensures p in View(fs') ==> View(fs')[p] == if p == parent + [name] then Node(ino, dir) else View(fs)[p]
    {
      AddedViewAt(fs, par, fs', parent, d, name, ino, dir, p);
    }
  }

  /** The parent table grows by the new inode; all old paths stay. */
  lemma AddedPaths(fs: Fs, par: Parents, fs': Fs, parent: Path, d: Ino, name: string, ino: Ino, dir: bool)
    requires TreeOf(fs, par) && Normal(parent) && ResolveFrom(fs, 1, parent) == Some(d)
    requires Added(fs, fs', d, name, ino, dir)
    ensures var par' := par[ino := (d, name)];
            && TreeOf(fs', par') && GoodParents(par) && GoodParents(par')
            && (forall i <- fs.inodes :: (i == 1 || i in par) && PathOf(par', i) == PathOf(par, i))
            && PathOf(par', ino) == parent + [name]
            && (forall i <- fs'.inodes :: i == 1 || i in par')
  {
    hide TreeOf, FileType, Dot, BadName, Added, View;
    var par' := par[ino := (d, name)];
    AddedKeepsTree(fs, par, fs', d, name, ino, dir);
    ParentsClosed(fs, par);
    ParentsClosed(fs', par');
    AddedFacts(fs, par, fs', d, name, ino, dir);
    ResolvedPathIsUnique(fs, par, parent, d);
    LiveHasParent(fs, par);
    LiveHasParent(fs', par');
    forall i <- fs.inodes ensures PathOf(par', i) == PathOf(par, i) { PathUnderExtension(par, par', i); }
  }

  lemma AddedViewAt(fs: Fs, par: Parents, fs': Fs, parent: Path, d: Ino, name: string, ino: Ino, dir: bool, p: Path)
    requires TreeOf(fs, par) && Normal(parent) && ResolveFrom(fs, 1, parent) == Some(d)
    requires Added(fs, fs', d, name, ino, dir)
    ensures p in View(fs') <==> p in View(fs) || p == parent + [name]
    ensures p in View(fs') ==> View(fs')[p] == if p == parent + [name] then Node(ino, dir) else View(fs)[p]
  {
    hide TreeOf, FileType, Dot, BadName, Added, View, PathOf;
    var par' := par[ino := (d, name)];
    AddedPaths(fs, par, fs', parent, d, name, ino, dir);
    AddedFacts(fs, par, fs', d, name, ino, dir);
    ViewByParents(fs, par, p);
    ViewByParents(fs', par', p);
    if p in View(fs') {
      PathInjective(fs', par', p, View(fs')[p].ino, if p == parent + [name] then ino else View(fs)[p].ino);
    }
  }

  lemma AddedFacts(fs: Fs, par: Parents, fs': Fs, parent: Ino, name: string, ino: Ino, dir: bool)
    requires TreeOf(fs, par) && Added(fs, fs', parent, name, ino, dir)
    ensures fs'.inodes.Keys == fs.inodes.Keys + {ino} && ino !in fs.inodes && ino !in par && ino != 1
    ensures IsDir(fs'.inodes[ino].mode) == dir
    ensures forall i <- fs.inodes :: fs'.inodes[i].mode == fs.inodes[i].mode
  {
    hide FileType, Dot, BadName, Entry, LinksOk, DotsOk, EntriesOk;
  }

  lemma PathInjective(fs: Fs, par: Parents, p: Path, i: Ino, j: Ino)
    requires TreeOf(fs, par) && GoodParents(par) && i in fs.inodes && j in fs.inodes
    requires (i == 1 || i in par) && (j == 1 || j in par)
    requires PathOf(par, i) == p == PathOf(par, j)
    ensures i == j
  {
    hide TreeOf;
    PathResolves(fs, par, i);
    PathResolves(fs, par, j);
  }

  lemma {:induction false} PathUnderRemoval(par: Parents, ino: Ino, i: Ino)
    requires GoodParents(par) && GoodParents(par - {ino})
    requires i != ino && (i == 1 || i in par)
    requires forall k <- par :: par[k].0 != ino
    ensures PathOf(par - {ino}, i) == PathOf(par, i)
    decreases i
  {
    if i != 1 { PathUnderRemoval(par, ino, par[i].0); }
  }

  lemma RemovedView(fs: Fs, par: Parents, fs': Fs, parent: Path, d: Ino, name: string, ino: Ino, dir: bool)
    requires TreeOf(fs, par) && Normal(parent) && ResolveFrom(fs, 1, parent) == Some(d)
    requires Removed(fs, fs', d, name, ino, dir)
    ensures View(fs') == Without(View(fs), parent + [name])
  {
    hide TreeOf, FileType, Dot, BadName, Removed, View;
    var par' := par - {ino};
    RemovedKeepsTree(fs, par, fs', d, name, ino, dir);
    ParentsClosed(fs, par);
    ParentsClosed(fs', par');
    RemovedFacts(fs, par, fs', d, name, ino, dir);
    ResolvedPathIsUnique(fs, par, parent, d);
    LiveHasParent(fs, par);
    LiveHasParent(fs', par');
    var target := parent + [name];
    forall i <- fs'.inodes ensures PathOf(par', i) == PathOf(par, i) { PathUnderRemoval(par, ino, i); }
    assert PathOf(par, ino) == target;
    forall p ensures p in View(fs') <==> p in View(fs) && p != target {
      ViewByParents(fs, par, p);
      ViewByParents(fs', par', p);
      if p in View(fs') && p == target {
        PathInjective(fs, par, p, View(fs')[p].ino, ino);
      }
    }
    forall p | p in View(fs')
      ensures View(fs')[p] == View(fs)[p]
    {
      ViewByParents(fs, par, p);
      ViewByParents(fs', par', p);
      PathInjective(fs, par, p, View(fs')[p].ino, View(fs)[p].ino);
    }
  }

  lemma RemovedFacts(fs: Fs, par: Parents, fs': Fs, parent: Ino, name: string, ino: Ino, dir: bool)
    requires TreeOf(fs, par) && Removed(fs, fs', parent, name, ino, dir)
    ensures fs'.inodes.Keys == fs.inodes.Keys - {ino} && ino in fs.inodes && ino != 1
    ensures ino in par && par[ino] == (parent, name)
    ensures forall k <- par :: par[k].0 != ino
    ensures forall i <- fs'.inodes :: fs'.inodes[i].mode == fs.inodes[i].mode
  {
    hide FileType, Dot, BadName, Entry, LinksOk, DotsOk, Numbered, DirsMatch, ParentsOk, EntriesOk;
    RemovedNumbers(fs, par, fs', parent, name, ino, dir);
    LiveHasParent(fs, par);
  }

  // ---- Refinement -----------------------------------------------------------------

  lemma EntryIsLive(fs: Fs, par: Parents, d: Ino, name: string)
    requires TreeOf(fs, par) && Entry(fs, d, name).Some?
    ensures d in fs.dirs && d in fs.inodes && IsDir(fs.inodes[d].mode)
    ensures Entry(fs, d, name).value in fs.inodes && Entry(fs, d, name).value >= 1
  {
    hide FileType, Dot, BadName, LinksOk;
    DotNames();
  }

  /** An entry of a resolved directory is a path of the view, and conversely. */
  lemma ChildInView(fs: Fs, par: Parents, parent: Path, d: Ino, name: string)
    requires TreeOf(fs, par) && Normal(parent) && !Dot(name) && ResolveFrom(fs, 1, parent) == Some(d)
    ensures parent + [name] in View(fs) <==> Entry(fs, d, name).Some?
    ensures Entry(fs, d, name).Some? ==>
              var i := Entry(fs, d, name).value;
              View(fs)[parent + [name]] == Node(i, IsDir(ModeOf(fs.inodes, i)))
    ensures parent in View(fs) && View(fs)[parent] == Node(d, IsDir(ModeOf(fs.inodes, d)))
  {
    hide TreeOf, FileType, Dot, Entry;
    var p := parent + [name];
    assert Init(p) == parent && Last(p) == name;
    ResolveLast(fs, p);
    if Entry(fs, d, name).Some? { EntryIsLive(fs, par, d, name); }
  }

  lemma HasChild(fs: Fs, par: Parents, p: Path, i: Ino)
    requires TreeOf(fs, par) && Normal(p) && ResolveFrom(fs, 1, p) == Some(i)
    ensures (exists child <- View(fs) :: child != [] && Init(child) == p) <==>
            (exists n :: Entry(fs, i, n).Some? && !Dot(n))
  {
    hide TreeOf, FileType, Dot, Entry, View;
    if exists child <- View(fs) :: child != [] && Init(child) == p {
      var child :| child in View(fs) && child != [] && Init(child) == p;
      assert child == p + [Last(child)];
      InViewIsNormal(fs, child);
      ChildInView(fs, par, p, i, Last(child));
      assert Entry(fs, i, Last(child)).Some? && !Dot(Last(child));
    }
    if exists n :: Entry(fs, i, n).Some? && !Dot(n) {
      var n :| Entry(fs, i, n).Some? && !Dot(n);
      ChildInView(fs, par, p, i, n);
      assert Init(p + [n]) == p;
    }
  }

  lemma InViewIsNormal(fs: Fs, p: Path)
    requires p in View(fs)
    ensures Normal(p) && ResolveFrom(fs, 1, p) == Some(View(fs)[p].ino)
  {
  }

  /** Every namespace call by path changes the view exactly as the map version does,
      and succeeds or fails with the same result; the only extra failure is the cap. */
  lemma OpRefines(fs: Fs, parent: Path, name: string, op: Op)
    requires Tree(fs) && Normal(parent) && OpTyped(op)
    ensures var (fs', errno) := RunOp(fs, parent, name, op);
            && (View(fs'), errno) == MapOp(View(fs), parent, name, op, fs.nextInode + 1, fs.nextInode >= 10000)
            && Tree(fs')
  {
    hide TreeOf, FileType, Dot, View, BadName;
    var par :| TreeOf(fs, par);
    ResolvesIffInView(fs, parent);
    if parent in View(fs) {
      var d := ResolveFrom(fs, 1, parent).value;
      match op
      case OpCreate(m) => CreateRefines(fs, par, parent, d, name, m);
      case OpMkdir(m) => MkdirRefines(fs, par, parent, d, name, m);
      case OpUnlink => UnlinkRefines(fs, par, parent, d, name);
      case OpRmdir => RmdirRefines(fs, par, parent, d, name);
    }
  }

  lemma ResolvesIffInView(fs: Fs, p: Path)
    requires Normal(p)
    ensures p in View(fs) <==> ResolveFrom(fs, 1, p).Some?
  {
  }

  lemma CreateRefines(fs: Fs, par: Parents, parent: Path, d: Ino, name: string, mode: nat)
    requires TreeOf(fs, par) && Normal(parent) && ResolveFrom(fs, 1, parent) == Some(d) && IsReg(mode)
    ensures var (fs', reply) := DoCreate(fs, d, name, mode);
            && (View(fs'), ToErrno(reply)) ==
               MapAdd(View(fs), parent, name, Node(fs.nextInode + 1, false), fs.nextInode >= INODE_CAP)
            && Tree(fs')
  {
    hide TreeOf, FileType, IsDir, Dot, View, Entry;
    DotNames();
    if BadName(name) {
      ResolvesIffInView(fs, parent);
    } else {
      ChildInView(fs, par, parent, d, name);
      if CheckNew(fs, d, name).None? {
        TreeNumbered(fs, par);
        CreateAdds(fs, d, name, mode);
        AddedView(fs, par, DoCreate(fs, d, name, mode).0, parent, d, name, fs.nextInode + 1, false);
        AddedKeepsTree(fs, par, DoCreate(fs, d, name, mode).0, d, name, fs.nextInode + 1, false);
      }
    }
  }

  lemma TreeNumbered(fs: Fs, par: Parents)
    requires TreeOf(fs, par)
    ensures Numbered(fs)
  {
    hide Numbered, DirsMatch, ParentsOk, EntriesOk, DotsOk, LinksOk;
  }

  lemma MkdirRefines(fs: Fs, par: Parents, parent: Path, d: Ino, name: string, mode: nat)
    requires TreeOf(fs, par) && Normal(parent) && ResolveFrom(fs, 1, parent) == Some(d) && IsDir(mode)
    ensures var (fs', reply) := DoMkdir(fs, d, name, mode);
            && (View(fs'), ToErrno(reply)) ==
               MapAdd(View(fs), parent, name, Node(fs.nextInode + 1, true), fs.nextInode >= INODE_CAP)
            && Tree(fs')
  {
    hide TreeOf, FileType, IsDir, Dot, View, Entry;
    DotNames();
    if BadName(name) {
      ResolvesIffInView(fs, parent);
    } else {
      ChildInView(fs, par, parent, d, name);
      if CheckNew(fs, d, name).None? {
        TreeNumbered(fs, par);
        MkdirAdds(fs, d, name, mode);
        AddedView(fs, par, DoMkdir(fs, d, name, mode).0, parent, d, name, fs.nextInode + 1, true);
        AddedKeepsTree(fs, par, DoMkdir(fs, d, name, mode).0, d, name, fs.nextInode + 1, true);
      }
    }
  }

  lemma UnlinkRefines(fs: Fs, par: Parents, parent: Path, d: Ino, name: string)
    requires TreeOf(fs, par) && Normal(parent) && ResolveFrom(fs, 1, parent) == Some(d)
    ensures var (fs', reply) := DoUnlink(fs, d, name);
            && (View(fs'), ToErrno(reply)) == MapUnlink(View(fs), parent, name)
            && Tree(fs')
  {
    hide TreeOf, FileType, IsDir, Dot, View, Entry;
    DotNames();
    if BadName(name) {
      ResolvesIffInView(fs, parent);
    } else {
      ChildInView(fs, par, parent, d, name);
      if DoUnlink(fs, d, name).1.Inode? {
        var ino := DoUnlink(fs, d, name).1.ino;
        TreeParts(fs, par);
        UnlinkRemoves(fs, par, d, name);
        RemovedView(fs, par, DoUnlink(fs, d, name).0, parent, d, name, ino, false);
        RemovedKeepsTree(fs, par, DoUnlink(fs, d, name).0, d, name, ino, false);
      }
    }
  }

  lemma TreeParts(fs: Fs, par: Parents)
    requires TreeOf(fs, par)
    ensures DirsMatch(fs) && ParentsOk(fs, par) && EntriesOk(fs, par) && DotsOk(fs, par) && LinksOk(fs)
  {
    hide Numbered, DirsMatch, EntriesOk, LinksOk;
  }

  lemma RmdirRefines(fs: Fs, par: Parents, parent: Path, d: Ino, name: string)
    requires TreeOf(fs, par) && Normal(parent) && ResolveFrom(fs, 1, parent) == Some(d)
    ensures var (fs', reply) := DoRmdir(fs, d, name);
            && (View(fs'), ToErrno(reply)) == MapRmdir(View(fs), parent, name)
            && Tree(fs')
  {
    hide TreeOf, FileType, IsDir, Dot, View, Entry, BadName;
    DotNames();
    if BadName(name) {
      ResolvesIffInView(fs, parent);
    } else {
      ChildInView(fs, par, parent, d, name);
      if Entry(fs, d, name).Some? && IsDir(ModeOf(fs.inodes, Entry(fs, d, name).value)) {
        RmdirEmptyInView(fs, par, parent, d, name);
      }
      if DoRmdir(fs, d, name).1.Inode? {
        var ino := DoRmdir(fs, d, name).1.ino;
        TreeParts(fs, par);
        RmdirRemoves(fs, par, d, name);
        RemovedView(fs, par, DoRmdir(fs, d, name).0, parent, d, name, ino, true);
        RemovedKeepsTree(fs, par, DoRmdir(fs, d, name).0, d, name, ino, true);
      }
    }
  }

  lemma RmdirEmptyInView(fs: Fs, par: Parents, parent: Path, d: Ino, name: string)
    requires TreeOf(fs, par) && Normal(parent) && ResolveFrom(fs, 1, parent) == Some(d) && !Dot(name)
    requires Entry(fs, d, name).Some? && IsDir(ModeOf(fs.inodes, Entry(fs, d, name).value))
    ensures |DirOr(fs.dirs, Entry(fs, d, name).value)| > 2 <==>
            exists child <- View(fs) :: child != [] && Init(child) == parent + [name]
  {
    hide TreeOf, FileType, IsDir, Dot, View, BadName;
    var i := Entry(fs, d, name).value;
    EntryIsLive(fs, par, d, name);
    TreeParts(fs, par);
    assert i in fs.dirs;
    DirHasDots(fs, par, i);
    ZcardCountsNames(fs, i);
    var p := parent + [name];
    assert Init(p) == parent && Last(p) == name;
    ResolveLast(fs, p);
    HasChild(fs, par, p, i);
  }

  lemma DirHasDots(fs: Fs, par: Parents, d: Ino)
    requires TreeOf(fs, par) && d in fs.dirs
    ensures Entry(fs, d, ".") == Some(d) && Entry(fs, d, "..").Some?
    ensures Entry(fs, d, "..") == Some(if d == 1 || d !in par then 1 else par[d].0)
  {
    hide FileType, Dot, BadName, LinksOk, EntriesOk, Numbered;
  }
}
