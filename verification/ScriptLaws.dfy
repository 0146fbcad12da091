/** The four Lua scripts and chmod in terms of the stored fields alone: exactly when each
    answers what, and which fields and entries a success changes. */
module ScriptLaws {
  import opened Wrappers
  import opened Inodes
  import opened SessionFs

  predicate Unusable(name: string) { name == "" || name == "." || name == ".." || '/' in name }

  /** The inode's type bits are 0o040000. */
  predicate Folder(fs: Fs, i: Ino) { i in fs.inodes && fs.inodes[i].mode / 0x1000 % 0x10 == 4 }

  function Slot(fs: Fs, d: Ino, name: string): Option<Ino>
  {
    if d in fs.dirs && name in fs.dirs[d] then Some(fs.dirs[d][name]) else None
  }

  /** Same records but for the inodes in `except`. */
  ghost predicate RecordsKept(fs: Fs, fs': Fs, except: set<Ino>)
  {
    forall i: Ino | i !in except :: (i in fs'.inodes <==> i in fs.inodes) && (i in fs.inodes ==> fs'.inodes[i] == fs.inodes[i])
  }

  /** The record is as before but for its link count. */
  predicate OnlyLinks(m: Meta, m': Meta, delta: int)
  {
    m' == m.(nlink := m.nlink + delta)
  }

  /** What a hash holds that no command ever wrote to. */
  predicate Unwritten(m: Meta)
  {
    m.contentHash.None? && m.contentState.None? && m.manifestClass.None? && m.revision == 0
  }

  predicate Stats(m: Meta, mode: nat, size: nat, links: int)
  {
    m.mode == mode && m.uid == 0 && m.gid == 0 && m.size == size && m.nlink == links
  }

  /** The answers of the two creating scripts, tested in this order. */
  predicate NewAnswer(fs: Fs, parent: Ino, name: string, reply: ScriptReply)
  {
    if Unusable(name) then reply == InvalidName
    else if !Folder(fs, parent) then reply == NotDirectory
    else if Slot(fs, parent, name).Some? then reply == Exists
    else if fs.nextInode >= 10000 then reply == NoSpace
    else reply == Inode(fs.nextInode + 1)
  }

  lemma CreateInFields(fs: Fs, parent: Ino, name: string, mode: nat)
    ensures var (fs', reply) := DoCreate(fs, parent, name, mode);
            && NewAnswer(fs, parent, name, reply)
            && (!reply.Inode? ==> fs' == fs)
            && (reply.Inode? ==>
                  && fs'.nextInode == reply.ino && RecordsKept(fs, fs', {reply.ino})
                  && reply.ino in fs'.inodes && Stats(fs'.inodes[reply.ino], mode, 0, 1)
                  && (reply.ino !in fs.inodes ==> Unwritten(fs'.inodes[reply.ino]))
                  && forall d: Ino, n :: Slot(fs', d, n) == if d == parent && n == name then Some(reply.ino) else Slot(fs, d, n))
  {
  }

  lemma MkdirInFields(fs: Fs, parent: Ino, name: string, mode: nat)
    ensures var (fs', reply) := DoMkdir(fs, parent, name, mode);
            && NewAnswer(fs, parent, name, reply)
            && (!reply.Inode? ==> fs' == fs)
            && (reply.Inode? && reply.ino !in fs.inodes && reply.ino !in fs.dirs ==>
                  && fs'.nextInode == reply.ino && RecordsKept(fs, fs', {reply.ino, parent})
                  && reply.ino in fs'.inodes && Stats(fs'.inodes[reply.ino], mode, 4096, 2) && Unwritten(fs'.inodes[reply.ino])
                  && parent in fs'.inodes && OnlyLinks(fs.inodes[parent], fs'.inodes[parent], 1)
                  && forall d: Ino, n :: Slot(fs', d, n) ==
                       if d == parent && n == name then Some(reply.ino)
                       else if d != reply.ino then Slot(fs, d, n)
                       else if n == "." then Some(reply.ino) else if n == ".." then Some(parent) else None)
  {
    hide BadName;
    MkdirAnswers(fs, parent, name, mode);
  }

  lemma MkdirAnswers(fs: Fs, parent: Ino, name: string, mode: nat)
    ensures NewAnswer(fs, parent, name, DoMkdir(fs, parent, name, mode).1)
  {
  }

  /** The answers the two removing scripts share, tested first and in this order. */
  predicate OldAnswer(fs: Fs, parent: Ino, name: string, reply: ScriptReply)
  {
    && (Unusable(name) ==> reply == InvalidName)
    && (!Unusable(name) && !Folder(fs, parent) ==> reply == NotDirectory)
    && (!Unusable(name) && Folder(fs, parent) && Slot(fs, parent, name).None? ==> reply == Absent)
  }

  predicate Found(fs: Fs, parent: Ino, name: string)
  {
    !Unusable(name) && Folder(fs, parent) && Slot(fs, parent, name).Some?
  }

  lemma UnlinkInFields(fs: Fs, parent: Ino, name: string)
    ensures var (fs', reply) := DoUnlink(fs, parent, name);
            && OldAnswer(fs, parent, name, reply)
            && (Found(fs, parent, name) ==>
                  var i := Slot(fs, parent, name).value;
                  reply == if Folder(fs, i) then IsDirectory else Inode(i))
            && (!reply.Inode? ==> fs' == fs)
            && (reply.Inode? && reply.ino in fs.inodes ==>
                  var i := reply.ino;
                  && fs'.nextInode == fs.nextInode && RecordsKept(fs, fs', {i})
                  && (fs.inodes[i].nlink <= 1 ==> i !in fs'.inodes && i !in fs'.dirs)
                  && (fs.inodes[i].nlink > 1 ==> i in fs'.inodes && OnlyLinks(fs.inodes[i], fs'.inodes[i], -1))
                  && forall d: Ino, n | d != i ::
                       Slot(fs', d, n) == if d == parent && n == name then None else Slot(fs, d, n))
  {
    hide BadName;
    UnlinkAnswers(fs, parent, name);
  }

  lemma UnlinkAnswers(fs: Fs, parent: Ino, name: string)
    ensures var reply := DoUnlink(fs, parent, name).1;
            && OldAnswer(fs, parent, name, reply)
            && (Found(fs, parent, name) ==>
                  var i := Slot(fs, parent, name).value;
                  reply == if Folder(fs, i) then IsDirectory else Inode(i))
  {
  }

  lemma RmdirAnswers(fs: Fs, parent: Ino, name: string)
    ensures var reply := DoRmdir(fs, parent, name).1;
            && OldAnswer(fs, parent, name, reply)
            && (Found(fs, parent, name) ==>
                  var i := Slot(fs, parent, name).value;
                  reply == if !Folder(fs, i) then NotDirectory
                           else if i in fs.dirs && |fs.dirs[i]| > 2 then NotEmpty else Inode(i))
  {
    CheckAnswers(fs, parent, name);
    if Found(fs, parent, name) {
      FolderIsDir(fs, Slot(fs, parent, name).value);
      hide Folder, IsDir, AddLinks, Detach, OldAnswer, CheckOld;
    }
  }

  lemma CheckAnswers(fs: Fs, parent: Ino, name: string)
    ensures CheckOld(fs, parent, name).Some? <==> !Found(fs, parent, name)
    ensures CheckOld(fs, parent, name).Some? ==> OldAnswer(fs, parent, name, CheckOld(fs, parent, name).value)
  {
  }

  lemma FolderIsDir(fs: Fs, i: Ino)
    ensures IsDir(ModeOf(fs.inodes, i)) <==> Folder(fs, i)
  {
  }

  lemma RmdirRecords(fs: Fs, parent: Ino, name: string)
    ensures var (fs', reply) := DoRmdir(fs, parent, name);
            reply.Inode? && reply.ino != parent ==>
              && RecordsKept(fs, fs', {reply.ino, parent}) && reply.ino !in fs'.inodes && reply.ino !in fs'.dirs
              && parent in fs.inodes && parent in fs'.inodes && OnlyLinks(fs.inodes[parent], fs'.inodes[parent], -1)
  {
    hide BadName;
    NoMode();
  }

  lemma NoMode()
    ensures !IsDir(0)
  {
  }

  lemma RmdirSlots(fs: Fs, parent: Ino, name: string)
    ensures var (fs', reply) := DoRmdir(fs, parent, name);
            reply.Inode? ==> forall d: Ino, n | d != reply.ino ::
              Slot(fs', d, n) == if d == parent && n == name then None else Slot(fs, d, n)
  {
    hide BadName, IsDir, AddLinks;
  }

  lemma RmdirInFields(fs: Fs, parent: Ino, name: string)
    ensures var (fs', reply) := DoRmdir(fs, parent, name);
            && OldAnswer(fs, parent, name, reply)
            && (Found(fs, parent, name) ==>
                  var i := Slot(fs, parent, name).value;
                  reply == if !Folder(fs, i) then NotDirectory
                           else if i in fs.dirs && |fs.dirs[i]| > 2 then NotEmpty else Inode(i))
            && (!reply.Inode? ==> fs' == fs)
            && (reply.Inode? && reply.ino != parent ==>
                  var i := reply.ino;
                  && fs'.nextInode == fs.nextInode && RecordsKept(fs, fs', {i, parent})
                  && i !in fs'.inodes && i !in fs'.dirs
                  && parent in fs'.inodes && OnlyLinks(fs.inodes[parent], fs'.inodes[parent], -1)
                  && forall d: Ino, n | d != i ::
                       Slot(fs', d, n) == if d == parent && n == name then None else Slot(fs, d, n))
  {
    hide BadName, Slot, Folder, RecordsKept, OldAnswer, Found;
    RmdirAnswers(fs, parent, name);
    RmdirRecords(fs, parent, name);
    RmdirSlots(fs, parent, name);
  }

  /** The inodes a walk passes: each component is an entry of the directory before. */
  predicate Chain(fs: Fs, parts: seq<string>, chain: seq<Ino>)
  {
    |chain| == |parts| + 1 && forall k | 0 <= k < |parts| :: Link(fs, parts, chain, k)
  }

  predicate Link(fs: Fs, parts: seq<string>, chain: seq<Ino>, k: nat)
    requires k < |parts| && k + 1 < |chain|
  {
    Slot(fs, chain[k], parts[k]) == Some(chain[k + 1]) && chain[k + 1] != 0
  }

  lemma {:induction false} ChainResolves(fs: Fs, parts: seq<string>, chain: seq<Ino>)
    requires Chain(fs, parts, chain)
    ensures ResolveFrom(fs, chain[0], parts) == Some(chain[|parts|])
    decreases |parts|
  {
    if parts != [] {
      assert Link(fs, parts, chain, 0);
      var later, rest := chain[1..], parts[1..];
      forall k | 0 <= k < |rest| ensures Link(fs, rest, later, k) { assert Link(fs, parts, chain, k + 1); }
      ChainResolves(fs, rest, later);
    }
  }

  lemma {:induction false} ResolvesByChain(fs: Fs, cur: Ino, parts: seq<string>) returns (chain: seq<Ino>)
    requires ResolveFrom(fs, cur, parts).Some?
    ensures Chain(fs, parts, chain) && chain[0] == cur && Some(chain[|parts|]) == ResolveFrom(fs, cur, parts)
    decreases |parts|
  {
    if parts == [] {
      chain := [cur];
    } else {
      var next := Slot(fs, cur, parts[0]).value;
      var later := ResolvesByChain(fs, next, parts[1..]);
      chain := [cur] + later;
      forall k | 0 <= k < |parts| ensures Link(fs, parts, chain, k) {
        if k > 0 { assert Link(fs, parts[1..], later, k - 1); }
      }
    }
  }

  /** The walk from the root finds an inode exactly if a chain of entries leads to it. */
  lemma WalkIsChain(fs: Fs, parts: seq<string>, i: Ino)
    ensures ResolveFrom(fs, 1, parts) == Some(i) <==>
            exists chain :: Chain(fs, parts, chain) && chain[0] == 1 && chain[|parts|] == i
  {
    if ResolveFrom(fs, 1, parts) == Some(i) { var chain := ResolvesByChain(fs, 1, parts); }
    if chain :| Chain(fs, parts, chain) && chain[0] == 1 && chain[|parts|] == i { ChainResolves(fs, parts, chain); }
  }
}
