/** What one write or truncate makes of a file's bytes. */
module ContentBytes {
  import opened Inodes

  const MAX_FILE_BYTES := 1024 * 1024

  /** The arguments of one mutate_content call, as the caller gave them. */
  datatype Mutation =
    | Write(offset: int, buf: Bytes)
    | Truncate(length: int)
  {
    predicate Negative() { match this case Write(o, _) => o < 0 case Truncate(n) => n < 0 }

    /** The `end` the size check looks at. */
    function End(): int
    {
      match this case Write(o, b) => o + |b| case Truncate(n) => n
    }
  }

  /** `data.ljust(width, b"\0")` */
  function Ljust(data: Bytes, width: nat): (r: Bytes)
    ensures |r| == if |data| < width then width else |data|
    ensures forall k | 0 <= k < |r| :: r[k] == if k < |data| then data[k] else 0
  {
    if |data| < width then data + seq(width - |data|, _ => 0) else data
  }

  function Upto(data: Bytes, n: nat): Bytes
  {
    if n < |data| then data[..n] else data
  }

  /** The slicing expressions of mutate_content. */
  function Mutated(m: Mutation, prior: Bytes): Bytes
    requires !m.Negative()
  {
    match m
    case Truncate(n) => Ljust(Upto(prior, n), n)
    case Write(o, buf) =>
      var padded := Ljust(prior, o);
      padded[..o] + buf + (if o + |buf| < |padded| then padded[o + |buf|..] else [])
  }

  /** Byte by byte: a write replaces its own range and keeps every other byte, a
      truncate keeps a prefix; gaps are zero. A write never shortens the file, and even
      an empty write past the end pads up to its offset. */
  lemma MutatedBytes(m: Mutation, prior: Bytes)
    requires !m.Negative()
    ensures |Mutated(m, prior)| ==
            match m
            case Truncate(n) => n
            case Write(o, buf) => if o + |buf| < |prior| then |prior| else o + |buf|
    ensures forall k | 0 <= k < |Mutated(m, prior)| ::
              Mutated(m, prior)[k] ==
              if m.Write? && m.offset <= k < m.offset + |m.buf| then m.buf[k - m.offset]
              else if k < |prior| then prior[k] else 0
  {
  }

  lemma MutatedSize(m: Mutation, prior: Bytes)
    requires !m.Negative() && m.End() <= 1048576 && |prior| <= 1048576
    ensures |Mutated(m, prior)| <= 1048576
  {
  }

  /** `data[offset:offset + size]`, as FUSE read cuts it. */
  function Slice(data: Bytes, offset: nat, size: nat): Bytes
  {
    if offset >= |data| then []
    else if offset + size > |data| then data[offset..] else data[offset..offset + size]
  }

  /** Reading a written range gives the written bytes; reading any stretch of the old file
      that the write does not touch gives what it gave before. */
  lemma ReadBack(offset: nat, buf: Bytes, prior: Bytes, from: nat, size: nat)
    ensures Slice(Mutated(Write(offset, buf), prior), offset, |buf|) == buf
    ensures from + size <= |prior| && (from + size <= offset || offset + |buf| <= from) ==>
              Slice(Mutated(Write(offset, buf), prior), from, size) == Slice(prior, from, size)
  {
    var m := Write(offset, buf);
    MutatedBytes(m, prior);
    var after := Mutated(m, prior);
    assert after[offset..offset + |buf|] == buf;
    if from + size <= |prior| && (from + size <= offset || offset + |buf| <= from) {
      assert after[from..from + size] == prior[from..from + size];
    }
  }
}
