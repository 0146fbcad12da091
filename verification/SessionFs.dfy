/** One session's directory tables and the four Lua scripts that change them.
    The `Do*` functions give each script's atomic effect on a snapshot; the class
    runs the scripts' Redis commands one after the other on the live tables. */
module SessionFs {
  import opened Wrappers
  import opened Inodes

  /** `fs:next_inode`, the `fs:inode:*` hashes and the `fs:dir:*` sorted sets. */
  datatype Fs = Fs(
    nextInode: nat,
    inodes: map<Ino, Meta>,
    dirs: map<Ino, map<string, Ino>>)

  datatype ScriptReply =
    | Inode(ino: Ino)
    | Exists
    | Absent
    | NotEmpty
    | InvalidName
    | NotDirectory
    | IsDirectory
    | NoSpace

  const INODE_CAP := 10000

  predicate Dot(name: string) { name == "." || name == ".." }

  predicate BadName(name: string)
  {
    Dot(name) || name == "" || '/' in name
  }

  /** `tonumber(HGET 'fs:inode:i' 'mode' or '0')` */
  function ModeOf(inodes: map<Ino, Meta>, i: Ino): nat
  {
    if i in inodes then inodes[i].mode else 0
  }

  function MetaOr(inodes: map<Ino, Meta>, i: Ino): Meta
  {
    if i in inodes then inodes[i] else EMPTY_META
  }

  function DirOr(dirs: map<Ino, map<string, Ino>>, d: Ino): map<string, Ino>
  {
    if d in dirs then dirs[d] else map[]
  }

  /** ZSCORE `fs:dir:d` name */
  function Entry(fs: Fs, d: Ino, name: string): Option<Ino>
  {
    if d in fs.dirs && name in fs.dirs[d] then Some(fs.dirs[d][name]) else None
  }

  function NewFile(prior: Meta, mode: nat): Meta
  {
    prior.(mode := mode, uid := 0, gid := 0, size := 0, nlink := 1)
  }

  function NewDir(prior: Meta, mode: nat): Meta
  {
    prior.(mode := mode, uid := 0, gid := 0, size := 4096, nlink := 2)
  }

  function AddLinks(inodes: map<Ino, Meta>, i: Ino, delta: int): map<Ino, Meta>
  {
    var m := MetaOr(inodes, i);
    inodes[i := m.(nlink := m.nlink + delta)]
  }

  /** Validation shared by atomic_create.lua and atomic_mkdir.lua. */
  function CheckNew(fs: Fs, parent: Ino, name: string): Option<ScriptReply>
  {
    if BadName(name) then Some(InvalidName)
    else if !IsDir(ModeOf(fs.inodes, parent)) then Some(NotDirectory)
    else if Entry(fs, parent, name).Some? then Some(Exists)
    else if fs.nextInode >= INODE_CAP then Some(NoSpace)
    else None
  }

  function DoCreate(fs: Fs, parent: Ino, name: string, mode: nat): (Fs, ScriptReply)
  {
    var failed := CheckNew(fs, parent, name);
    if failed.Some? then (fs, failed.value)
    else
      var ino := fs.nextInode + 1;
      (Fs(ino,
          fs.inodes[ino := NewFile(MetaOr(fs.inodes, ino), mode)],
          fs.dirs[parent := DirOr(fs.dirs, parent)[name := ino]]),
       Inode(ino))
  }

  function DoMkdir(fs: Fs, parent: Ino, name: string, mode: nat): (Fs, ScriptReply)
  {
    var failed := CheckNew(fs, parent, name);
    if failed.Some? then (fs, failed.value)
    else
      var ino := fs.nextInode + 1;
      var linked := fs.dirs[parent := DirOr(fs.dirs, parent)[name := ino]];
      (Fs(ino,
          AddLinks(fs.inodes[ino := NewDir(MetaOr(fs.inodes, ino), mode)], parent, 1),
          linked[ino := DirOr(linked, ino)["." := ino][".." := parent]]),
       Inode(ino))
  }

  /** Validation shared by atomic_unlink.lua and atomic_rmdir.lua. */
  function CheckOld(fs: Fs, parent: Ino, name: string): Option<ScriptReply>
  {
    if BadName(name) then Some(InvalidName)
    else if !IsDir(ModeOf(fs.inodes, parent)) then Some(NotDirectory)
    else if Entry(fs, parent, name).None? then Some(Absent)
    else None
  }

  function Detach(dirs: map<Ino, map<string, Ino>>, d: Ino, name: string): map<Ino, map<string, Ino>>
  {
    dirs[d := DirOr(dirs, d) - {name}]
  }

  function DoUnlink(fs: Fs, parent: Ino, name: string): (Fs, ScriptReply)
  {
    var failed := CheckOld(fs, parent, name);
    if failed.Some? then (fs, failed.value)
    else
      var ino := Entry(fs, parent, name).value;
      if IsDir(ModeOf(fs.inodes, ino)) then (fs, IsDirectory)
      else
        var dirs := Detach(fs.dirs, parent, name);
        var inodes := AddLinks(fs.inodes, ino, -1);
        if inodes[ino].nlink <= 0 then
          (Fs(fs.nextInode, inodes - {ino}, dirs - {ino}), Inode(ino))
        else
          (Fs(fs.nextInode, inodes, dirs), Inode(ino))
  }

  function DoRmdir(fs: Fs, parent: Ino, name: string): (Fs, ScriptReply)
  {
    var failed := CheckOld(fs, parent, name);
    if failed.Some? then (fs, failed.value)
    else
      var ino := Entry(fs, parent, name).value;
      if !IsDir(ModeOf(fs.inodes, ino)) then (fs, NotDirectory)
      else if |DirOr(fs.dirs, ino)| > 2 then (fs, NotEmpty)
      else
        (Fs(fs.nextInode,
            AddLinks(fs.inodes - {ino}, parent, -1),
            Detach(fs.dirs, parent, name) - {ino}),
         Inode(ino))
  }

  /** The live tables. A script runs alone on the Redis server, so a method body is
      one atomic step however many commands it issues. */
  class SessionStore {
    var nextInode: nat
    var inodes: map<Ino, Meta>
    var dirs: map<Ino, map<string, Ino>>

    function Snapshot(): Fs
      reads this
    {
      Fs(nextInode, inodes, dirs)
    }

    constructor (fs: Fs)
      ensures Snapshot() == fs
    {
      nextInode, inodes, dirs := fs.nextInode, fs.inodes, fs.dirs;
    }

    method AtomicCreate(parent: Ino, filename: string, mode: nat) returns (reply: ScriptReply)
      modifies this
      ensures (Snapshot(), reply) == DoCreate(old(Snapshot()), parent, filename, mode)
    {
      if BadName(filename) { return InvalidName; }
      if !IsDir(ModeOf(inodes, parent)) { return NotDirectory; }
      if Entry(Snapshot(), parent, filename).Some? { return Exists; }
      if nextInode >= INODE_CAP { return NoSpace; }
      nextInode := nextInode + 1;
      inodes := inodes[nextInode := NewFile(MetaOr(inodes, nextInode), mode)];
      dirs := dirs[parent := DirOr(dirs, parent)[filename := nextInode]];
      return Inode(nextInode);
    }

    method AtomicMkdir(parent: Ino, filename: string, mode: nat) returns (reply: ScriptReply)
      modifies this
      ensures (Snapshot(), reply) == DoMkdir(old(Snapshot()), parent, filename, mode)
    {
      if BadName(filename) { return InvalidName; }
      if !IsDir(ModeOf(inodes, parent)) { return NotDirectory; }
      if Entry(Snapshot(), parent, filename).Some? { return Exists; }
      if nextInode >= INODE_CAP { return NoSpace; }
      nextInode := nextInode + 1;
      inodes := inodes[nextInode := NewDir(MetaOr(inodes, nextInode), mode)];
      dirs := dirs[parent := DirOr(dirs, parent)[filename := nextInode]];
      dirs := dirs[nextInode := DirOr(dirs, nextInode)["." := nextInode][".." := parent]];
      inodes := AddLinks(inodes, parent, 1);
      return Inode(nextInode);
    }

    method AtomicUnlink(parent: Ino, filename: string) returns (reply: ScriptReply)
      modifies this
      ensures (Snapshot(), reply) == DoUnlink(old(Snapshot()), parent, filename)
    {
      if BadName(filename) { return InvalidName; }
      if !IsDir(ModeOf(inodes, parent)) { return NotDirectory; }
      var found := Entry(Snapshot(), parent, filename);
      if found.None? { return Absent; }
      var ino := found.value;
      if IsDir(ModeOf(inodes, ino)) { return IsDirectory; }
      dirs := Detach(dirs, parent, filename);
      inodes := AddLinks(inodes, ino, -1);
      if inodes[ino].nlink <= 0 {
        inodes := inodes - {ino};
        dirs := dirs - {ino};
      }
      return Inode(ino);
    }

    method AtomicRmdir(parent: Ino, filename: string) returns (reply: ScriptReply)
      modifies this
      ensures (Snapshot(), reply) == DoRmdir(old(Snapshot()), parent, filename)
    {
      if BadName(filename) { return InvalidName; }
      if !IsDir(ModeOf(inodes, parent)) { return NotDirectory; }
      var found := Entry(Snapshot(), parent, filename);
      if found.None? { return Absent; }
      var ino := found.value;
      if !IsDir(ModeOf(inodes, ino)) { return NotDirectory; }
      if |DirOr(dirs, ino)| > 2 { return NotEmpty; }
      dirs := Detach(dirs, parent, filename);
      inodes := inodes - {ino};
      dirs := dirs - {ino};
      inodes := AddLinks(inodes, parent, -1);
      return Inode(ino);
    }

    /** The walk shared by fuse.py and state.py: one ZSCORE for each component. */
    method ResolvePath(parts: seq<string>) returns (result: Option<Ino>)
      ensures result == ResolveFrom(Snapshot(), 1, parts)
    {
      var current: Ino := 1;
      for k := 0 to |parts|
        invariant ResolveFrom(Snapshot(), 1, parts) == ResolveFrom(Snapshot(), current, parts[k..])
      {
        var found := Entry(Snapshot(), current, parts[k]);
        assert parts[k..][1..] == parts[k + 1..];
        if found.None? || found.value == 0 { return None; }
        current := found.value;
      }
      return Some(current);
    }

    /** FUSE chmod on a resolved inode: the type bits survive. */
    method Chmod(ino: Ino, perm: nat) returns (ok: bool)
      modifies this
      ensures ok == (ino in old(inodes))
      ensures Snapshot() == if ok then DoChmod(old(Snapshot()), ino, perm) else old(Snapshot())
      ensures ok ==>
                && inodes.Keys == old(inodes).Keys && nextInode == old(nextInode) && dirs == old(dirs)
                && (forall i <- inodes | i != ino :: inodes[i] == old(inodes)[i])
                && inodes[ino] == old(inodes)[ino].(mode := inodes[ino].mode)
                && inodes[ino].mode < 0x10000
                && inodes[ino].mode / 0x1000 == old(inodes)[ino].mode / 0x1000 % 0x10
                && inodes[ino].mode % 0x1000 == perm % 0x1000
    {
      if ino !in inodes { return false; }
      inodes := inodes[ino := inodes[ino].(mode := WithPermissions(inodes[ino].mode, perm))];
      return true;
    }
  }

  function DoChmod(fs: Fs, ino: Ino, perm: nat): Fs
    requires ino in fs.inodes
  {
    fs.(inodes := fs.inodes[ino := fs.inodes[ino].(mode := WithPermissions(fs.inodes[ino].mode, perm))])
  }

  /** Follow `parts` from inode `cur`; a missing or zero score stops the walk. */
  function ResolveFrom(fs: Fs, cur: Ino, parts: seq<string>): Option<Ino>
    decreases |parts|
  {
    if parts == [] then Some(cur)
    else
      var found := Entry(fs, cur, parts[0]);
      if found.None? || found.value == 0 then None
      else ResolveFrom(fs, found.value, parts[1..])
  }
}
