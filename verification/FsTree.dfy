/** The directory tables form a tree. `par` gives each non-root inode the one
    directory and name under which it is entered; every parent has a smaller number. */
module FsTree {
  import opened Wrappers
  import opened Inodes
  import opened SessionFs

  type Parents = map<Ino, (Ino, string)>

  ghost predicate Numbered(fs: Fs)
  {
    && 1 <= fs.nextInode <= 10000
    && 1 in fs.inodes && IsDir(fs.inodes[1].mode)
    && (forall i <- fs.inodes :: 1 <= i <= fs.nextInode)
    && (forall i <- fs.inodes :: IsDir(fs.inodes[i].mode) || IsReg(fs.inodes[i].mode))
  }

  ghost predicate DirsMatch(fs: Fs)
  {
    forall d :: d in fs.dirs <==> d in fs.inodes && IsDir(fs.inodes[d].mode)
  }

  ghost predicate ParentsOk(fs: Fs, par: Parents)
  {
    && par.Keys == fs.inodes.Keys - {1}
    && (forall i <- par ::
          && par[i].0 < i
          && par[i].0 in fs.dirs
          && !BadName(par[i].1)
          && Entry(fs, par[i].0, par[i].1) == Some(i))
  }

  ghost predicate EntriesOk(fs: Fs, par: Parents)
  {
    forall d: Ino, n :: Entry(fs, d, n).Some? && !Dot(n) ==>
      Entry(fs, d, n).value in par && par[Entry(fs, d, n).value] == (d, n)
  }

  ghost predicate DotsOk(fs: Fs, par: Parents)
    requires par.Keys == fs.inodes.Keys - {1} && DirsMatch(fs)
  {
    forall d <- fs.dirs ::
      && Entry(fs, d, ".") == Some(d)
      && Entry(fs, d, "..") == Some(if d == 1 then 1 else par[d].0)
  }

  /** Names of the subdirectories entered in `d`. */
  ghost function Subdirs(fs: Fs, d: Ino): set<string>
    requires d in fs.dirs
  {
    set n | n in fs.dirs[d] && !Dot(n) && IsDir(ModeOf(fs.inodes, fs.dirs[d][n]))
  }

  ghost predicate LinksOk(fs: Fs)
  {
    forall i <- fs.inodes ::
      if i in fs.dirs then fs.inodes[i].nlink == 2 + |Subdirs(fs, i)| else fs.inodes[i].nlink == 1
  }

  ghost predicate TreeOf(fs: Fs, par: Parents)
  {
    Numbered(fs) && DirsMatch(fs) && ParentsOk(fs, par) && EntriesOk(fs, par) && DotsOk(fs, par) && LinksOk(fs)
  }

  ghost predicate Tree(fs: Fs) { exists par :: TreeOf(fs, par) }

  /** What rmdir's `ZCARD > 2` test decides: no named entry is left. */
  lemma {:induction false} ZcardCountsNames(fs: Fs, d: Ino)
    requires d in fs.dirs && Entry(fs, d, ".").Some? && Entry(fs, d, "..").Some?
    ensures |fs.dirs[d]| <= 2 <==> forall n :: Entry(fs, d, n).Some? ==> Dot(n)
  {
    var keys := fs.dirs[d].Keys;
    var one, two := ".", "..";
    assert one != two by { assert |one| != |two|; }
    var dots := {one, two};
    assert |dots| == 2 && dots <= keys;
    assert keys == dots + (keys - dots);
    assert |keys| == 2 + |keys - dots|;
    assert forall n :: n in keys - dots <==> Entry(fs, d, n).Some? && !Dot(n);
    if |keys| <= 2 {
      assert keys - dots == {};
    } else {
      var n :| n in keys - dots;
      assert Entry(fs, d, n).Some? && !Dot(n);
    }
  }

  // ---- Adding and removing one entry ---------------------------------------

  lemma AbsentIsNoDir()
    ensures !IsDir(0)
  {
  }

  /** `fs'` is `fs` with the fresh inode `ino` entered as `name` in `parent`. */
  ghost predicate Added(fs: Fs, fs': Fs, parent: Ino, name: string, ino: Ino, dir: bool)
  {
    && fs.nextInode < INODE_CAP && ino == fs.nextInode + 1 == fs'.nextInode
    && parent in fs.inodes && IsDir(fs.inodes[parent].mode)
    && !BadName(name) && Entry(fs, parent, name).None?
    && fs'.inodes.Keys == fs.inodes.Keys + {ino}
    && fs'.dirs.Keys == fs.dirs.Keys + (if dir then {parent, ino} else {parent})
    && (forall i <- fs.inodes | i != ino ::
          && fs'.inodes[i].mode == fs.inodes[i].mode
          && fs'.inodes[i].nlink == fs.inodes[i].nlink + (if dir && i == parent then 1 else 0))
    && (if dir then IsDir(fs'.inodes[ino].mode) else IsReg(fs'.inodes[ino].mode))
    && fs'.inodes[ino].nlink == (if dir then 2 else 1)
    && (forall d: Ino, n | d != ino ::
          Entry(fs', d, n) == if d == parent && n == name then Some(ino) else Entry(fs, d, n))
    && (dir ==> forall n | ino !in fs.dirs ::
          Entry(fs', ino, n) == if n == ".." then Some(parent) else if n == "." then Some(ino) else None)
  }

  lemma CreateAdds(fs: Fs, parent: Ino, name: string, mode: nat)
    requires Numbered(fs) && IsReg(mode) && CheckNew(fs, parent, name).None?
    ensures Added(fs, DoCreate(fs, parent, name, mode).0, parent, name, fs.nextInode + 1, false)
  {
    hide FileType, BadName;
    AbsentIsNoDir();
  }

  lemma MkdirAdds(fs: Fs, parent: Ino, name: string, mode: nat)
    requires Numbered(fs) && IsDir(mode) && CheckNew(fs, parent, name).None?
    ensures Added(fs, DoMkdir(fs, parent, name, mode).0, parent, name, fs.nextInode + 1, true)
  {
    hide FileType, BadName;
    AbsentIsNoDir();
  }

  lemma DotNames()
    ensures Dot(".") && Dot("..") && "." != ".."
    ensures forall n :: Dot(n) <==> n == "." || n == ".."
    ensures forall n :: Dot(n) ==> BadName(n)
  {
    assert |"."| != |".."|;
  }

  lemma EntryIsInDir(fs: Fs)
    ensures forall d: Ino, n :: Entry(fs, d, n).Some? ==> d in fs.dirs
  {
  }

  lemma AddedKeepsTree(fs: Fs, par: Parents, fs': Fs, parent: Ino, name: string, ino: Ino, dir: bool)
    requires TreeOf(fs, par) && Added(fs, fs', parent, name, ino, dir)
    ensures TreeOf(fs', par[ino := (parent, name)])
  {
    hide FileType, Dot, Added, LinksOk, EntriesOk, DotsOk, BadName, ParentsOk, Entry;
    assert Numbered(fs') && DirsMatch(fs') by { AddedNumbers(fs, fs', parent, name, ino, dir); }
    AddedKeepsParents(fs, par, fs', parent, name, ino, dir);
    AddedKeepsEntries(fs, par, fs', parent, name, ino, dir);
    AddedKeepsDots(fs, par, fs', parent, name, ino, dir);
    AddedKeepsLinks(fs, par, fs', parent, name, ino, dir);
  }

  lemma AddedNumbers(fs: Fs, fs': Fs, parent: Ino, name: string, ino: Ino, dir: bool)
    requires Numbered(fs) && DirsMatch(fs) && Added(fs, fs', parent, name, ino, dir)
    ensures Numbered(fs') && DirsMatch(fs') && ino !in fs.inodes && ino !in fs.dirs && parent in fs.dirs
  {
    hide FileType, Dot, BadName, Entry;
  }

  lemma AddedKeepsParents(fs: Fs, par: Parents, fs': Fs, parent: Ino, name: string, ino: Ino, dir: bool)
    requires Numbered(fs) && DirsMatch(fs) && ParentsOk(fs, par) && Added(fs, fs', parent, name, ino, dir)
    ensures ParentsOk(fs', par[ino := (parent, name)])
  {
    hide FileType, Dot, BadName, Entry;
    AddedNumbers(fs, fs', parent, name, ino, dir);
  }

  lemma AddedKeepsEntries(fs: Fs, par: Parents, fs': Fs, parent: Ino, name: string, ino: Ino, dir: bool)
    requires Numbered(fs) && DirsMatch(fs) && ParentsOk(fs, par) && EntriesOk(fs, par)
    requires Added(fs, fs', parent, name, ino, dir)
    ensures EntriesOk(fs', par[ino := (parent, name)])
  {
    hide FileType, Dot, BadName, Entry, IsDir, IsReg;
    AddedNumbers(fs, fs', parent, name, ino, dir);
    var par' := par[ino := (parent, name)];
    forall d: Ino, n | Entry(fs', d, n).Some? && !Dot(n)
      ensures Entry(fs', d, n).value in par' && par'[Entry(fs', d, n).value] == (d, n)
    {
      if d == ino {
        EntryIsInDir(fs');
        DotNames();
      }
    }
  }

  lemma AddedKeepsDots(fs: Fs, par: Parents, fs': Fs, parent: Ino, name: string, ino: Ino, dir: bool)
    requires Numbered(fs) && DirsMatch(fs) && ParentsOk(fs, par) && DotsOk(fs, par)
    requires Added(fs, fs', parent, name, ino, dir)
    requires DirsMatch(fs')
    ensures par[ino := (parent, name)].Keys == fs'.inodes.Keys - {1} && DotsOk(fs', par[ino := (parent, name)])
  {
    hide FileType, Dot, BadName, Entry, IsDir, IsReg;
    AddedNumbers(fs, fs', parent, name, ino, dir);
    assert name != "." && name != ".." by { DotNames(); }
    var par' := par[ino := (parent, name)];
    assert par'.Keys == fs'.inodes.Keys - {1};
    DotNames();
    forall d <- fs'.dirs
      ensures Entry(fs', d, ".") == Some(d)
      ensures Entry(fs', d, "..") == Some(if d == 1 then 1 else par'[d].0)
    {
      AddedDots(fs, par, fs', parent, name, ino, dir, d);
    }
  }

  lemma AddedDots(fs: Fs, par: Parents, fs': Fs, parent: Ino, name: string, ino: Ino, dir: bool, d: Ino)
    requires Numbered(fs) && DirsMatch(fs) && ParentsOk(fs, par) && DotsOk(fs, par)
    requires Added(fs, fs', parent, name, ino, dir) && d in fs'.dirs && name != "." && name != ".."
    requires ino !in fs.inodes && (d != 1 ==> d in par[ino := (parent, name)])
    ensures Entry(fs', d, ".") == Some(d)
    ensures Entry(fs', d, "..") == Some(if d == 1 then 1 else par[ino := (parent, name)][d].0)
  {
    hide FileType, Dot, BadName, Entry, IsDir, IsReg, ParentsOk;
    if d != ino { assert d in fs.dirs; }
  }

  /** Subdirectory names in terms of entries. */
  lemma SubdirsByEntry(fs: Fs, d: Ino)
    requires d in fs.dirs
    ensures forall n :: n in Subdirs(fs, d) <==>
        Entry(fs, d, n).Some? && !Dot(n) && IsDir(ModeOf(fs.inodes, Entry(fs, d, n).value))
  {
    hide Dot, IsDir;
  }

  lemma AddedKeepsLinks(fs: Fs, par: Parents, fs': Fs, parent: Ino, name: string, ino: Ino, dir: bool)
    requires TreeOf(fs, par) && Added(fs, fs', parent, name, ino, dir)
    ensures LinksOk(fs')
  {
    hide FileType, Dot, BadName, Entry, IsReg, Subdirs, DotsOk, ParentsOk, EntriesOk;
    AddedNumbers(fs, fs', parent, name, ino, dir);
    forall i <- fs'.inodes
      ensures if i in fs'.dirs then fs'.inodes[i].nlink == 2 + |Subdirs(fs', i)| else fs'.inodes[i].nlink == 1
    {
      if i == ino {
        if dir { FreshDirIsEmpty(fs, fs', parent, name, ino); }
      } else if i in fs'.dirs {
        AddedSubdirs(fs, par, fs', parent, name, ino, dir, i);
      }
    }
  }

  lemma FreshDirIsEmpty(fs: Fs, fs': Fs, parent: Ino, name: string, ino: Ino)
    requires Numbered(fs) && DirsMatch(fs) && Added(fs, fs', parent, name, ino, true)
    ensures ino in fs'.dirs && Subdirs(fs', ino) == {}
  {
    hide FileType, Dot, BadName, Entry, IsReg, Subdirs;
    AddedNumbers(fs, fs', parent, name, ino, true);
    SubdirsByEntry(fs', ino);
    DotNames();
  }

  lemma AddedSubdirs(fs: Fs, par: Parents, fs': Fs, parent: Ino, name: string, ino: Ino, dir: bool, d: Ino)
    requires Numbered(fs) && DirsMatch(fs) && ParentsOk(fs, par) && EntriesOk(fs, par)
    requires Added(fs, fs', parent, name, ino, dir) && d in fs.dirs && d in fs'.dirs
    ensures |Subdirs(fs', d)| == |Subdirs(fs, d)| + if dir && d == parent then 1 else 0
  {
    hide FileType, Dot, BadName, Entry, Subdirs;
    AddedNumbers(fs, fs', parent, name, ino, dir);
    var added := if dir && d == parent then {name} else {};
    forall n ensures n in Subdirs(fs', d) <==> n in Subdirs(fs, d) + added {
      SubdirsByEntry(fs, d);
      SubdirsByEntry(fs', d);
      DotNames();
      if Entry(fs, d, n).Some? && !Dot(n) {
        assert Entry(fs, d, n).value in par;
      }
    }
    assert Subdirs(fs', d) == Subdirs(fs, d) + added;
    assert added !! Subdirs(fs, d) by { SubdirsByEntry(fs, d); }
  }

  /** `fs'` is `fs` without inode `ino`, which was entered as `name` in `parent`
      and, if a directory, had no named entry. */
  ghost predicate Removed(fs: Fs, fs': Fs, parent: Ino, name: string, ino: Ino, dir: bool)
  {
    && fs'.nextInode == fs.nextInode
    && !Dot(name) && Entry(fs, parent, name) == Some(ino)
    && ino in fs.inodes && dir == IsDir(fs.inodes[ino].mode)
    && parent in fs.inodes && parent != ino
    && (forall n :: Entry(fs, ino, n).Some? ==> Dot(n))
    && fs'.inodes.Keys == fs.inodes.Keys - {ino}
    && fs'.dirs.Keys == fs.dirs.Keys - {ino}
    && (forall i <- fs'.inodes ::
          && fs'.inodes[i].mode == fs.inodes[i].mode
          && fs'.inodes[i].nlink == fs.inodes[i].nlink - (if dir && i == parent then 1 else 0))
    && (forall d: Ino, n ::
          Entry(fs', d, n) == if d == ino || (d == parent && n == name) then None else Entry(fs, d, n))
  }

  lemma UnlinkRemoves(fs: Fs, par: Parents, parent: Ino, name: string)
    requires DirsMatch(fs) && ParentsOk(fs, par) && EntriesOk(fs, par) && LinksOk(fs)
    requires DoUnlink(fs, parent, name).1.Inode?
    ensures Removed(fs, DoUnlink(fs, parent, name).0, parent, name, DoUnlink(fs, parent, name).1.ino, false)
  {
    hide IsDir, IsReg, Dot, Subdirs;
    AbsentIsNoDir();
    var ino := Entry(fs, parent, name).value;
    assert ino in par && parent in fs.dirs && ino !in fs.dirs;
    assert fs.inodes[ino].nlink == 1;
    var fs' := DoUnlink(fs, parent, name).0;
    assert fs'.inodes == fs.inodes - {ino};
  }

  lemma RmdirRemoves(fs: Fs, par: Parents, parent: Ino, name: string)
    requires DirsMatch(fs) && ParentsOk(fs, par) && EntriesOk(fs, par) && DotsOk(fs, par)
    requires DoRmdir(fs, parent, name).1.Inode?
    ensures Removed(fs, DoRmdir(fs, parent, name).0, parent, name, DoRmdir(fs, parent, name).1.ino, true)
  {
    hide IsDir, IsReg, Dot, DotsOk;
    AbsentIsNoDir();
    var ino := Entry(fs, parent, name).value;
    assert ino in par && parent in fs.dirs && ino in fs.dirs && parent < ino;
    RmdirNeedsEmpty(fs, par, ino);
    RmdirEffect(fs, parent, name);
  }

  lemma RmdirEffect(fs: Fs, parent: Ino, name: string)
    requires DoRmdir(fs, parent, name).1.Inode? && parent in fs.inodes && parent in fs.dirs
    requires DoRmdir(fs, parent, name).1.ino != parent
    ensures var (fs', reply) := DoRmdir(fs, parent, name);
            && fs'.nextInode == fs.nextInode
            && fs'.inodes.Keys == fs.inodes.Keys - {reply.ino}
            && fs'.dirs.Keys == fs.dirs.Keys - {reply.ino}
            && (forall i <- fs'.inodes ::
                  && fs'.inodes[i].mode == fs.inodes[i].mode
                  && fs'.inodes[i].nlink == fs.inodes[i].nlink - (if i == parent then 1 else 0))
            && (forall d: Ino, n ::
                  Entry(fs', d, n) == if d == reply.ino || (d == parent && n == name) then None else Entry(fs, d, n))
  {
    hide IsDir, BadName;
  }

  lemma RmdirNeedsEmpty(fs: Fs, par: Parents, ino: Ino)
    requires DirsMatch(fs) && ParentsOk(fs, par) && DotsOk(fs, par) && ino in fs.dirs && |fs.dirs[ino]| <= 2
    ensures forall n :: Entry(fs, ino, n).Some? ==> Dot(n)
  {
    hide Dot;
    ZcardCountsNames(fs, ino);
  }

  lemma RemovedKeepsTree(fs: Fs, par: Parents, fs': Fs, parent: Ino, name: string, ino: Ino, dir: bool)
    requires TreeOf(fs, par) && Removed(fs, fs', parent, name, ino, dir)
    ensures ino in par && par[ino] == (parent, name)
    ensures TreeOf(fs', par - {ino})
  {
    hide FileType, Dot, Removed, LinksOk, EntriesOk, DotsOk, BadName, ParentsOk, Entry;
    RemovedNumbers(fs, par, fs', parent, name, ino, dir);
    RemovedKeepsParents(fs, par, fs', parent, name, ino, dir);
    RemovedKeepsEntries(fs, par, fs', parent, name, ino, dir);
    RemovedKeepsDots(fs, par, fs', parent, name, ino, dir);
    RemovedKeepsLinks(fs, par, fs', parent, name, ino, dir);
  }

  lemma RemovedNumbers(fs: Fs, par: Parents, fs': Fs, parent: Ino, name: string, ino: Ino, dir: bool)
    requires Numbered(fs) && DirsMatch(fs) && ParentsOk(fs, par) && EntriesOk(fs, par)
    requires Removed(fs, fs', parent, name, ino, dir)
    ensures ino in par && par[ino] == (parent, name) && parent in fs.dirs
    ensures Numbered(fs') && DirsMatch(fs')
    ensures forall i <- par :: par[i].0 != ino
  {
    hide FileType, Dot, BadName, Entry;
    DotNames();
    EntryIsInDir(fs);
  }

  lemma RemovedKeepsParents(fs: Fs, par: Parents, fs': Fs, parent: Ino, name: string, ino: Ino, dir: bool)
    requires Numbered(fs) && DirsMatch(fs) && ParentsOk(fs, par) && EntriesOk(fs, par)
    requires Removed(fs, fs', parent, name, ino, dir)
    ensures ParentsOk(fs', par - {ino})
  {
    hide FileType, Dot, BadName, Entry, IsDir, IsReg;
    RemovedNumbers(fs, par, fs', parent, name, ino, dir);
  }

  lemma RemovedKeepsEntries(fs: Fs, par: Parents, fs': Fs, parent: Ino, name: string, ino: Ino, dir: bool)
    requires Numbered(fs) && DirsMatch(fs) && ParentsOk(fs, par) && EntriesOk(fs, par)
    requires Removed(fs, fs', parent, name, ino, dir)
    ensures EntriesOk(fs', par - {ino})
  {
    hide FileType, Dot, BadName, Entry, IsDir, IsReg;
    RemovedNumbers(fs, par, fs', parent, name, ino, dir);
  }

  lemma RemovedKeepsDots(fs: Fs, par: Parents, fs': Fs, parent: Ino, name: string, ino: Ino, dir: bool)
    requires Numbered(fs) && DirsMatch(fs) && ParentsOk(fs, par) && EntriesOk(fs, par) && DotsOk(fs, par)
    requires Removed(fs, fs', parent, name, ino, dir) && DirsMatch(fs')
    ensures (par - {ino}).Keys == fs'.inodes.Keys - {1} && DotsOk(fs', par - {ino})
  {
    hide FileType, Dot, BadName, Entry, IsDir, IsReg;
    RemovedNumbers(fs, par, fs', parent, name, ino, dir);
    DotNames();
  }

  lemma RemovedKeepsLinks(fs: Fs, par: Parents, fs': Fs, parent: Ino, name: string, ino: Ino, dir: bool)
    requires TreeOf(fs, par) && Removed(fs, fs', parent, name, ino, dir)
    ensures LinksOk(fs')
  {
    hide FileType, Dot, BadName, Entry, IsReg, Subdirs, DotsOk, ParentsOk, EntriesOk;
    RemovedNumbers(fs, par, fs', parent, name, ino, dir);
    forall i <- fs'.inodes
      ensures if i in fs'.dirs then fs'.inodes[i].nlink == 2 + |Subdirs(fs', i)| else fs'.inodes[i].nlink == 1
    {
      if i in fs'.dirs {
        RemovedSubdirs(fs, par, fs', parent, name, ino, dir, i);
      }
    }
  }

  lemma RemovedSubdirs(fs: Fs, par: Parents, fs': Fs, parent: Ino, name: string, ino: Ino, dir: bool, d: Ino)
    requires Numbered(fs) && DirsMatch(fs) && ParentsOk(fs, par) && EntriesOk(fs, par)
    requires Removed(fs, fs', parent, name, ino, dir) && d in fs.dirs && d in fs'.dirs
    ensures |Subdirs(fs', d)| == |Subdirs(fs, d)| - if dir && d == parent then 1 else 0
  {
    hide *;
    var gone := if dir && d == parent then {name} else {};
    forall n ensures n in Subdirs(fs', d) <==> n in Subdirs(fs, d) && n !in gone {
      RemovedSubdirAt(fs, par, fs', parent, name, ino, dir, d, n);
    }
    assert Subdirs(fs', d) == Subdirs(fs, d) - gone;
    assert gone <= Subdirs(fs, d) by { RemovedSubdirAt(fs, par, fs', parent, name, ino, dir, d, name); }
  }

  lemma RemovedSubdirAt(fs: Fs, par: Parents, fs': Fs, parent: Ino, name: string, ino: Ino, dir: bool, d: Ino, n: string)
    requires Numbered(fs) && DirsMatch(fs) && ParentsOk(fs, par) && EntriesOk(fs, par)
    requires Removed(fs, fs', parent, name, ino, dir) && d in fs.dirs && d in fs'.dirs
    ensures n in Subdirs(fs', d) <==> n in Subdirs(fs, d) && !(dir && d == parent && n == name)
    ensures dir ==> parent in fs.dirs && name in Subdirs(fs, parent)
  {
    hide FileType, Dot, BadName, Entry, Subdirs;
    EntryIsInDir(fs);
    SubdirsByEntry(fs, d);
    SubdirsByEntry(fs, parent);
    SubdirsByEntry(fs', d);
    assert Entry(fs', d, n) == if d == parent && n == name then None else Entry(fs, d, n);
    if Entry(fs, d, n).Some? && !Dot(n) {
      assert par[Entry(fs, d, n).value] == (d, n);
      assert Entry(fs, d, n).value in fs.inodes;
    }
  }

  /** Only attributes and content fields differ. */
  ghost predicate SameShape(fs: Fs, fs': Fs)
  {
    && fs'.nextInode == fs.nextInode && fs'.dirs == fs.dirs && fs'.inodes.Keys == fs.inodes.Keys
    && (forall i <- fs.inodes ::
          && IsDir(fs'.inodes[i].mode) == IsDir(fs.inodes[i].mode)
          && IsReg(fs'.inodes[i].mode) == IsReg(fs.inodes[i].mode)
          && fs'.inodes[i].nlink == fs.inodes[i].nlink)
  }

  lemma SameShapeKeepsTree(fs: Fs, par: Parents, fs': Fs)
    requires TreeOf(fs, par) && SameShape(fs, fs')
    ensures TreeOf(fs', par)
  {
    hide IsDir, IsReg, Dot, BadName, LinksOk, Subdirs;
    assert forall d: Ino, n :: Entry(fs', d, n) == Entry(fs, d, n);
    assert LinksOk(fs') by { SameShapeKeepsLinks(fs, fs'); }
  }

  lemma SameShapeKeepsLinks(fs: Fs, fs': Fs)
    requires DirsMatch(fs) && LinksOk(fs) && SameShape(fs, fs')
    ensures LinksOk(fs')
  {
    hide FileType, Dot;
    forall d <- fs'.dirs ensures Subdirs(fs', d) == Subdirs(fs, d) {
      AbsentIsNoDir();
    }
  }

  lemma ChmodKeepsTree(fs: Fs, par: Parents, ino: Ino, perm: nat)
    requires TreeOf(fs, par) && ino in fs.inodes
    ensures SameShape(fs, DoChmod(fs, ino, perm)) && TreeOf(DoChmod(fs, ino, perm), par)
  {
    hide FileType, TreeOf;
    PermissionsKeepType(fs.inodes[ino].mode, perm);
    SameShapeKeepsTree(fs, par, DoChmod(fs, ino, perm));
  }

  // ---- Runs ---------------------------------------------------------------

  /** What a namespace operation of the session may ask of the store. The callers of
      create and mkdir put the file type into the mode (fuse.py, state.py defaults). */
  datatype Call =
    | Create(parent: Ino, name: string, mode: nat)
    | Mkdir(parent: Ino, name: string, mode: nat)
    | Unlink(parent: Ino, name: string)
    | Rmdir(parent: Ino, name: string)
    | Chmod(ino: Ino, perm: nat)
  {
    predicate Typed()
    {
      (Create? ==> IsReg(mode)) && (Mkdir? ==> IsDir(mode))
    }
  }

  function Apply(fs: Fs, call: Call): Fs
  {
    match call
    case Create(p, n, m) => DoCreate(fs, p, n, m).0
    case Mkdir(p, n, m) => DoMkdir(fs, p, n, m).0
    case Unlink(p, n) => DoUnlink(fs, p, n).0
    case Rmdir(p, n) => DoRmdir(fs, p, n).0
    case Chmod(i, perm) => if i in fs.inodes then DoChmod(fs, i, perm) else fs
  }

  /** How one call changes the parent table: at most one entry comes or goes, fresh
      numbers are larger than every earlier one, and a removed directory was empty. */
  ghost predicate OneEntryChanged(fs: Fs, par: Parents, fs': Fs, par': Parents)
  {
    || (par' == par && fs'.inodes.Keys == fs.inodes.Keys && fs'.nextInode == fs.nextInode)
    || (&& fs'.nextInode == fs.nextInode + 1
        && fs'.nextInode !in par && fs'.nextInode in par'
        && par' == par[fs'.nextInode := par'[fs'.nextInode]])
    || (&& fs'.nextInode == fs.nextInode
        && exists ino <- par :: par' == par - {ino} && forall n :: Entry(fs, ino, n).Some? ==> Dot(n))
  }

  /** Every script and chmod keeps the tree, whatever its arguments and outcome. */
  lemma ApplyKeepsTree(fs: Fs, par: Parents, call: Call) returns (par': Parents)
    requires TreeOf(fs, par) && call.Typed()
    ensures TreeOf(Apply(fs, call), par')
    ensures OneEntryChanged(fs, par, Apply(fs, call), par')
  {
    hide TreeOf, FileType, Dot, DoCreate, DoMkdir, DoUnlink, DoRmdir, DoChmod;
    match call
    case Create(p, n, m) => par' := CreateStep(fs, par, p, n, m);
    case Mkdir(p, n, m) => par' := MkdirStep(fs, par, p, n, m);
    case Unlink(p, n) => par' := UnlinkStep(fs, par, p, n);
    case Rmdir(p, n) => par' := RmdirStep(fs, par, p, n);
    case Chmod(i, perm) =>
      par' := par;
      if i in fs.inodes { ChmodKeepsTree(fs, par, i, perm); }
  }

  lemma CreateStep(fs: Fs, par: Parents, p: Ino, n: string, m: nat) returns (par': Parents)
    requires TreeOf(fs, par) && IsReg(m)
    ensures TreeOf(DoCreate(fs, p, n, m).0, par') && OneEntryChanged(fs, par, DoCreate(fs, p, n, m).0, par')
  {
    hide FileType, Dot, LinksOk, DotsOk, EntriesOk;
    par' := par;
    if CheckNew(fs, p, n).None? {
      CreateAdds(fs, p, n, m);
      AddedKeepsTree(fs, par, DoCreate(fs, p, n, m).0, p, n, fs.nextInode + 1, false);
      par' := par[fs.nextInode + 1 := (p, n)];
    }
  }

  lemma MkdirStep(fs: Fs, par: Parents, p: Ino, n: string, m: nat) returns (par': Parents)
    requires TreeOf(fs, par) && IsDir(m)
    ensures TreeOf(DoMkdir(fs, p, n, m).0, par') && OneEntryChanged(fs, par, DoMkdir(fs, p, n, m).0, par')
  {
    hide FileType, Dot, LinksOk, DotsOk, EntriesOk;
    par' := par;
    if CheckNew(fs, p, n).None? {
      MkdirAdds(fs, p, n, m);
      AddedKeepsTree(fs, par, DoMkdir(fs, p, n, m).0, p, n, fs.nextInode + 1, true);
      par' := par[fs.nextInode + 1 := (p, n)];
    }
  }

  lemma UnlinkStep(fs: Fs, par: Parents, p: Ino, n: string) returns (par': Parents)
    requires TreeOf(fs, par)
    ensures TreeOf(DoUnlink(fs, p, n).0, par') && OneEntryChanged(fs, par, DoUnlink(fs, p, n).0, par')
  {
    hide FileType, Dot, DirsMatch, ParentsOk, EntriesOk, DotsOk, LinksOk, Numbered, Entry;
    par' := par;
    if DoUnlink(fs, p, n).1.Inode? {
      var ino := DoUnlink(fs, p, n).1.ino;
      UnlinkRemoves(fs, par, p, n);
      RemovedKeepsTree(fs, par, DoUnlink(fs, p, n).0, p, n, ino, false);
      par' := par - {ino};
    }
  }

  lemma RmdirStep(fs: Fs, par: Parents, p: Ino, n: string) returns (par': Parents)
    requires TreeOf(fs, par)
    ensures TreeOf(DoRmdir(fs, p, n).0, par') && OneEntryChanged(fs, par, DoRmdir(fs, p, n).0, par')
  {
    hide FileType, Dot, DirsMatch, ParentsOk, EntriesOk, DotsOk, LinksOk, Numbered, Entry;
    par' := par;
    if DoRmdir(fs, p, n).1.Inode? {
      var ino := DoRmdir(fs, p, n).1.ino;
      RmdirRemoves(fs, par, p, n);
      RemovedKeepsTree(fs, par, DoRmdir(fs, p, n).0, p, n, ino, true);
      par' := par - {ino};
    }
  }

  function RunCalls(fs: Fs, calls: seq<Call>): Fs
    decreases |calls|
  {
    if calls == [] then fs else RunCalls(Apply(fs, calls[0]), calls[1..])
  }

  /** The freshly initialised namespace: the root directory alone. */
  const ROOT_FS := Fs(1, map[1 := EMPTY_META.(mode := 16877, size := 4096, nlink := 2)], map[1 := map["." := 1, ".." := 1]])

  lemma RootIsTree()
    ensures TreeOf(ROOT_FS, map[])
  {
    assert IsDir(16877);
    forall d: Ino, n | Entry(ROOT_FS, d, n).Some? ensures Dot(n) {}
    assert Subdirs(ROOT_FS, 1) == {};
  }

  /** Every reachable namespace is a tree, the root is never removed and its number
      stays the smallest; inode numbers stay within the cap. */
  lemma {:induction false} ReachableIsTree(fs: Fs, calls: seq<Call>)
    requires Tree(fs) && forall c <- calls :: c.Typed()
    ensures Tree(RunCalls(fs, calls))
    ensures 1 in RunCalls(fs, calls).dirs
    ensures fs.nextInode <= RunCalls(fs, calls).nextInode <= 10000
    decreases |calls|
  {
    hide FileType, Dot, BadName, Entry, LinksOk, ParentsOk, EntriesOk, DotsOk, Apply;
    var par :| TreeOf(fs, par);
    if calls != [] {
      var par' := ApplyKeepsTree(fs, par, calls[0]);
      assert Tree(Apply(fs, calls[0]));
      ReachableIsTree(Apply(fs, calls[0]), calls[1..]);
    }
  }
}
