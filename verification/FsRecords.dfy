/** What each script does to the inode records of a session in order. */
module FsRecords {
  import opened Wrappers
  import opened Inodes
  import opened SessionFs
  import opened FsTree

  /** A record as a script first writes it: no content, no class, revision zero. */
  function Fresh(mode: nat, size: nat, nlink: int): Meta
  {
    Meta(mode, 0, 0, size, nlink, None, None, None, 0)
  }

  lemma FreshNumber(fs: Fs)
    requires Tree(fs)
    ensures fs.nextInode + 1 !in fs.inodes && fs.nextInode + 1 !in fs.dirs
  {
    hide IsDir, LinksOk, DotsOk;
    var par :| TreeOf(fs, par);
  }

  lemma EntryIsLive(fs: Fs, d: Ino, n: string)
    requires Tree(fs) && Entry(fs, d, n).Some? && !Dot(n)
    ensures Entry(fs, d, n).value in fs.inodes && d in fs.inodes && d != Entry(fs, d, n).value
    ensures !IsDir(fs.inodes[Entry(fs, d, n).value].mode) ==> fs.inodes[Entry(fs, d, n).value].nlink == 1
  {
    hide IsDir, DotsOk;
    var par :| TreeOf(fs, par);
  }

  /** A successful call writes, bumps or removes exactly these records, and leaves every
      other inode as it was; a failing one leaves all of them. */
  lemma RecordsAfter(fs: Fs, call: Call)
    requires Tree(fs) && !call.Chmod?
    ensures var (fs', reply) := ReplyOf(fs, call);
            if !reply.Inode? then fs' == fs
            else match call
              case Create(_, _, mode) =>
                reply.ino !in fs.inodes && fs'.inodes == fs.inodes[reply.ino := Fresh(mode, 0, 1)]
              case Mkdir(parent, _, mode) =>
                reply.ino !in fs.inodes && parent in fs.inodes &&
                fs'.inodes == fs.inodes[reply.ino := Fresh(mode, 4096, 2)]
                                       [parent := fs.inodes[parent].(nlink := fs.inodes[parent].nlink + 1)]
              case Unlink(_, _) => reply.ino in fs.inodes && fs'.inodes == fs.inodes - {reply.ino}
              case Rmdir(parent, _) =>
                reply.ino in fs.inodes && parent in fs.inodes && parent != reply.ino &&
                fs'.inodes == (fs.inodes - {reply.ino})[parent := fs.inodes[parent].(nlink := fs.inodes[parent].nlink - 1)]
              case Chmod(_, _) => true
  {
    hide Tree, FileType;
    FreshNumber(fs);
    NoMode();
    match call
    case Create(parent, name, mode) =>
    case Mkdir(parent, name, mode) =>
    case Unlink(parent, name) =>
      if DoUnlink(fs, parent, name).1.Inode? { EntryIsLive(fs, parent, name); }
    case Rmdir(parent, name) =>
      if DoRmdir(fs, parent, name).1.Inode? { EntryIsLive(fs, parent, name); }
    case Chmod(_, _) =>
  }

  lemma NoMode()
    ensures !IsDir(0)
  {
  }

  function ReplyOf(fs: Fs, call: Call): (Fs, ScriptReply)
    requires !call.Chmod?
  {
    match call
    case Create(p, n, m) => DoCreate(fs, p, n, m)
    case Mkdir(p, n, m) => DoMkdir(fs, p, n, m)
    case Unlink(p, n) => DoUnlink(fs, p, n)
    case Rmdir(p, n) => DoRmdir(fs, p, n)
  }
}
