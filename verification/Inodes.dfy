/** Inode records as the session namespace stores them in `fs:inode:<n>` hashes. */
module Inodes {
  import opened Wrappers

  type Ino = nat

  newtype Byte = x: int | 0 <= x < 256

  type Bytes = seq<Byte>

  /** An ideal content hash: two digests are equal exactly when the bytes are. */
  datatype Digest = Digest(preimage: Bytes)

  datatype ContentState = Missing | Static | Generated | Written

  /** The hash fields of one inode; an absent revision reads as "0". */
  datatype Meta = Meta(
    mode: nat,
    uid: nat,
    gid: nat,
    size: nat,
    nlink: int,
    contentHash: Option<Digest>,
    contentState: Option<ContentState>,
    manifestClass: Option<string>,
    revision: nat)

  /** What HSET starts from when the hash does not exist yet. */
  const EMPTY_META := Meta(0, 0, 0, 0, 0, None, None, None, 0)

  const S_IFDIR := 0x4000
  const S_IFREG := 0x8000

  /** `mode & 0o170000`, the file-type bits. */
  function FileType(mode: nat): nat
  {
    mode / 0x1000 % 0x10 * 0x1000
  }

  predicate IsDir(mode: nat) { FileType(mode) == S_IFDIR }

  predicate IsReg(mode: nat) { FileType(mode) == S_IFREG }

  /** `S_IFMT(kind) | (perm & 0o7777)`: chmod's result has the type bits of the one and the
      low twelve bits of the other. */
  function WithPermissions(kind: nat, perm: nat): (mode: nat)
    ensures mode < 0x10000 && mode / 0x1000 == kind / 0x1000 % 0x10 && mode % 0x1000 == perm % 0x1000
  {
    FileType(kind) + perm % 0x1000
  }

  lemma PermissionsKeepType(kind: nat, perm: nat)
    ensures FileType(WithPermissions(kind, perm)) == FileType(kind)
  {
    var t := kind / 0x1000 % 0x10;
    assert WithPermissions(kind, perm) / 0x1000 == t;
  }
}
