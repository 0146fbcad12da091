/** mutate_content as its retry loop runs, with other clients' commands between any two
    of its own. */
module MutateContent {
  import opened Wrappers
  import opened Inodes
  import opened SessionFs
  import opened ContentBytes
  import opened ContentProtocol
  import opened ContentStore
  import opened ContentInvariant
  import opened ContentRecords
  import FsTree

  /** How many of the stores after the first `from` differ from their predecessor so. */
  function Disturbances(past: seq<Store>, ino: Ino, from: nat): nat
    decreases |past|
  {
    if |past| <= from + 1 then 0
    else
      Disturbances(past[..|past| - 1], ino, from)
      + if Disturbed(past[|past| - 2], past[|past| - 1], ino) then 1 else 0
  }

  lemma {:induction false} DisturbancesAdd(past: seq<Store>, ino: Ino, from: nat, mid: nat)
    requires from <= mid < |past|
    ensures Disturbances(past, ino, from) == Disturbances(past[..mid + 1], ino, from) + Disturbances(past, ino, mid)
    decreases |past|
  {
    if |past| == mid + 1 {
      assert past[..mid + 1] == past;
    } else {
      var front := past[..|past| - 1];
      assert front[..mid + 1] == past[..mid + 1];
      DisturbancesAdd(front, ino, from, mid);
    }
  }

  /** Versions that differ were changed on the way. */
  lemma {:induction false} DisturbedOnTheWay(past: seq<Store>, ino: Ino, from: nat)
    requires from < |past| && Disturbed(past[from], past[|past| - 1], ino)
    ensures Disturbances(past, ino, from) >= 1
    decreases |past|
  {
    var n := |past| - 1;
    if from < n && !Disturbed(past[n - 1], past[n], ino) {
      assert past[..n][from] == past[from] && past[..n][n - 1] == past[n - 1];
      DisturbedOnTheWay(past[..n], ino, from);
    }
  }

  ghost predicate SawNothing(past: seq<Store>, from: nat, ino: Ino)
  {
    exists k | from <= k < |past| :: ino !in past[k].fs.inodes
  }

  ghost predicate SawNoFile(past: seq<Store>, from: nat, ino: Ino)
  {
    exists k | from <= k < |past| :: ino in past[k].fs.inodes && !IsFile(past[k], ino)
  }

  /** The content made of the file as it was in store `i` exceeds the room left in `j`. */
  predicate NoRoom(past: seq<Store>, i: int, j: int, ino: Ino, m: Mutation)
    requires 0 <= i < |past| && 0 <= j < |past| && !m.Negative()
  {
    IsFile(past[i], ino) && past[j].charged + |Mutated(m, BytesOf(past[i], ino))| > 16777216
  }

  ghost predicate SawNoRoom(past: seq<Store>, from: nat, ino: Ino, m: Mutation)
    requires !m.Negative()
  {
    exists i, j | from <= i <= j < |past| :: NoRoom(past, i, j, ino, m)
  }

  /** What an error claims of the stores the call met, from number `from` on. */
  ghost predicate Explained(past: seq<Store>, from: nat, ino: Ino, m: Mutation, error: WriteResult)
  {
    match error
    case ENOENT => SawNothing(past, from, ino)
    case EISDIR => SawNoFile(past, from, ino)
    case ENOSPC => !m.Negative() && SawNoRoom(past, from, ino, m)
    case EAGAIN => Disturbances(past, ino, from) >= 32
    case EIO => false
    case _ => true
  }

  /** A later start of the same stores explains no more. */
  lemma ExplainedFrom(past: seq<Store>, from: nat, later: nat, ino: Ino, m: Mutation, error: WriteResult)
    requires from <= later && error != EAGAIN && Explained(past, later, ino, m, error)
    ensures Explained(past, from, ino, m, error)
  {
    hide Mutated;
  }

  /** The mutation, made of the bytes the file held, was committed and nothing else. */
  ghost predicate Replaced(st: Store, st': Store, ino: Ino, m: Mutation)
  {
    !m.Negative() && WriteCommitted(st, st', ino, Mutated(m, BytesOf(st, ino)))
  }

  class SessionRedis {
    var st: Store
    ghost var log: seq<Event>
    /** The store as the commands of this client met and left it, oldest first. */
    ghost var past: seq<Store>

    ghost predicate Valid()
      reads this
    {
      StoreOk(st, log) && past != [] && past[|past| - 1] == st
    }

    /** The newest committed change is this call's, the file holds its bytes, and the last
        step of the store was exactly this commit. */
    ghost predicate JustWrote(c: CallId, ino: Ino, m: Mutation)
      reads this
    {
      && log != [] && ino in st.fs.inodes && Newest(log) == Wrote(c, ino, m, BytesOf(st, ino))
      && |past| >= 2
      && Replaced(past[|past| - 2], past[|past| - 1], ino, m)
    }

    constructor (st: Store)
      requires StoreOk(st, [])
      ensures Valid() && this.st == st && log == [] && past == [st]
    {
      this.st, log, past := st, [], [st];
    }

    /** What other clients may have done when the next command of call `c` arrives: any
        steps that keep the store in order and do not write in its name. */
    method OtherClients(ghost c: CallId)
      requires Valid()
      modifies this
      ensures Valid() && Grows(old(st), st) && old(log) <= log && WritesBy(log, c) == WritesBy(old(log), c)
      ensures past == old(past) + [st]
    {
      LeaseStepGrows(st, st);
      past := past + [st];
    }

    /** EXEC: refused (false) unless both watched versions are current. */
    method Exec(ghost c: CallId, ino: Ino, ghost m: Mutation, kv: nat, av: nat, content: Bytes) returns (ok: bool)
      modifies this
      ensures ok == (kv == Ver(old(st).inodeVer, ino) && av == old(st).allocVer)
      ensures st == if ok then CommitWrite(old(st), ino, content) else old(st)
      ensures log == if ok then old(log) + [Wrote(c, ino, m, content)] else old(log)
      ensures past == if ok then old(past) + [st] else old(past)
    {
      ok := kv == Ver(st.inodeVer, ino) && av == st.allocVer;
      if ok {
        st := CommitWrite(st, ino, content);
        log := log + [Wrote(c, ino, m, content)];
        past := past + [st];
      }
    }

    /** A call that reports success committed its mutation exactly once; one that reports
        any error committed nothing. Bad arguments are refused before anything else; every
        other error is explained by stores the call met, EAGAIN by 32 disturbances. */
    method Run(ghost c: CallId, ino: Ino, m: Mutation) returns (result: WriteResult)
      requires Valid()
      modifies this
      ensures Valid() && Grows(old(st), st)
      ensures WritesBy(log, c) == WritesBy(old(log), c) + if result.Written? then 1 else 0
      ensures result.Written? ==> JustWrote(c, ino, m)
      ensures var (start, end) := match m case Write(o, buf) => (o, o + |buf|) case Truncate(n) => (n, n);
              (result == EINVAL <==> start < 0) && (result == EFBIG <==> start >= 0 && end > 1048576)
      ensures old(past) <= past && Explained(past, |old(past)|, ino, m, result)
    {
      hide StoreOk, Grows, Mutated, WritesBy, SawNothing, SawNoFile, SawNoRoom, Disturbances;
      LeaseStepGrows(st, st);
      if m.Negative() { return EINVAL; }
      if m.End() > MAX_FILE_BYTES { return EFBIG; }
      for attempt := 0 to WRITE_TRIES
        invariant Valid() && Grows(old(st), st) && WritesBy(log, c) == WritesBy(old(log), c)
        invariant old(past) <= past && Disturbances(past, ino, |old(past)|) >= attempt
        invariant attempt > 0 ==> |past| > |old(past)|
      {
        label before:
        ghost var from := |past|;
        var outcome := Attempt(c, ino, m, WRITE_TRIES - attempt);
        if outcome.Some? {
          ExplainedFrom(past, |old(past)|, from, ino, m, outcome.value);
        } else {
          MoreDisturbances(old@before(past), past, ino, |old(past)|, from);
        }
        StoreInRange(old(st), old(log));
        GrowsTransitive(old(st), old@before(st), st);
        if outcome.Some? { return outcome.value; }
      }
      return EAGAIN;
    }

    /** One pass of the loop; None is a WatchError. */
    method Attempt(ghost c: CallId, ino: Ino, m: Mutation, ghost tries: nat) returns (outcome: Option<WriteResult>)
      requires Valid() && !m.Negative() && m.End() <= MAX_FILE_BYTES && tries > 0
      modifies this
      ensures Valid() && Grows(old(st), st)
      ensures WritesBy(log, c) == WritesBy(old(log), c) + if outcome == Some(WriteResult.Written) then 1 else 0
      ensures outcome == Some(WriteResult.Written) ==> JustWrote(c, ino, m)
      ensures outcome !in {Some(EINVAL), Some(EFBIG), Some(EIO), Some(EAGAIN)}
      ensures old(past) < past
      ensures outcome.Some? ==> Explained(past, |old(past)|, ino, m, outcome.value)
      ensures outcome.None? ==> Disturbances(past, ino, |old(past)|) >= 1
    {
      hide StoreOk, Grows, Mutated, WritesBy, Disturbances;
      LeaseStepGrows(st, st);
      ghost var start := st;
      StoreInRange(st, log);
      ghost var ph := WWatch(tries);
      Between(c, ino, m, ph, start);
      var kv, av := Ver(st.inodeVer, ino), st.allocVer;
      ph := Command(c, ino, m, ph);
      Between(c, ino, m, ph, start);
      assert past[|old(past)|] == past[|past| - 2] && past[|old(past)| + 1] == st;
      if ino !in st.fs.inodes { return Some(ENOENT); }
      if !IsReg(st.fs.inodes[ino].mode) { return Some(EISDIR); }
      var hash := st.fs.inodes[ino].contentHash;
      ph := Command(c, ino, m, ph);
      outcome := Update(c, ino, m, kv, av, hash, ph, start);
      if outcome.None? { DisturbedOnTheWay(past, ino, |old(past)|); }
    }

    /** The rest of a pass, once the record was read: old bytes, allocation check, EXEC. */
    method Update(ghost c: CallId, ino: Ino, m: Mutation, kv: nat, av: nat, hash: Option<Digest>,
                  ghost ph: WritePhase, ghost start: Store)
      returns (outcome: Option<WriteResult>)
      requires Valid() && WriterKnows(st, ino, m, ph) && Grows(start, st) && InRange(start)
      requires !m.Negative() && IsFile(st, ino) && st.fs.inodes[ino].contentHash == hash
      requires match hash
               case Some(d) => ph.WBlob? && ph.digest == d && ph.kv == kv && ph.av == av
               case None => ph.WAlloc? && ph.prior == [] && ph.kv == kv && ph.av == av
      modifies this
      ensures Valid() && Grows(start, st)
      ensures WritesBy(log, c) == WritesBy(old(log), c) + if outcome == Some(WriteResult.Written) then 1 else 0
      ensures outcome == Some(WriteResult.Written) ==> JustWrote(c, ino, m)
      ensures outcome in {None, Some(WriteResult.Written), Some(ENOSPC)}
      ensures old(past) < past
      ensures outcome == Some(ENOSPC) ==> NoRoom(past, |old(past)| - 1, |past| - 1, ino, m)
      ensures outcome == None ==> kv != Ver(st.inodeVer, ino) || av != st.allocVer
    {
      hide StoreOk, Grows, Mutated, WritesBy, WriterKnows;
      ghost var phase := ph;
      var prior: Bytes := [];
      if hash.Some? {
        Between(c, ino, m, phase, start);
        BlobIsStored(st, ino, m, phase);
        prior := st.blobs[hash.value];
        BlobIsItsPreimage(st, log, hash.value);
        phase := Command(c, ino, m, phase);
      }
      Between(c, ino, m, phase, start);
      assert past[|old(past)| - 1] == old(st) && prior == BytesOf(old(st), ino);
      var content := Mutated(m, prior);
      if st.charged + |content| > MAX_SESSION_BLOB_BYTES { return Some(ENOSPC); }
      phase := Command(c, ino, m, phase);
      outcome := Finish(c, ino, m, kv, av, content, phase, start);
    }

    /** The last round trip of a pass. */
    method Finish(ghost c: CallId, ino: Ino, ghost m: Mutation, kv: nat, av: nat, content: Bytes,
                  ghost ph: WritePhase, ghost start: Store)
      returns (outcome: Option<WriteResult>)
      requires ph.WExec? && ph.kv == kv && ph.av == av && ph.content == content
      requires Valid() && WriterKnows(st, ino, m, ph) && Grows(start, st) && InRange(start)
      modifies this
      ensures Valid() && Grows(start, st)
      ensures WritesBy(log, c) == WritesBy(old(log), c) + if outcome == Some(WriteResult.Written) then 1 else 0
      ensures outcome == Some(WriteResult.Written) ==> JustWrote(c, ino, m)
      ensures outcome == None || outcome == Some(WriteResult.Written)
      ensures old(past) < past
      ensures outcome == None ==> kv != Ver(st.inodeVer, ino) || av != st.allocVer
    {
      hide StoreOk, Grows, Mutated, WritesBy, BytesOf, WriterKnows, CommitWrite;
      Between(c, ino, m, ph, start);
      WriterStep(st, log, c, ino, m, ph);
      GrowsTransitive(start, st, WriteStep(st, c, ino, m, ph).0);
      assert log + [] == log;
      assert kv == Ver(st.inodeVer, ino) ==> ino in st.fs.inodes by { ExecNeedsLive(st, ino, m, ph); }
      ExecReplaces(st, ino, m, ph);
      var ok := Exec(c, ino, m, kv, av, content);
      if ok {
        CommittedShows(st, ino, content);
        assert Replaced(past[|past| - 2], past[|past| - 1], ino, m);
        assert Newest(log) == Wrote(c, ino, m, content);
      }
      return if ok then Some(WriteResult.Written) else None;
    }

    /** Other clients run; the call's knowledge survives. */
    method Between(ghost c: CallId, ino: Ino, ghost m: Mutation, ghost ph: WritePhase, ghost start: Store)
      requires Valid() && WriterKnows(st, ino, m, ph) && Grows(start, st) && InRange(start)
      modifies this
      ensures Valid() && WriterKnows(st, ino, m, ph) && Grows(start, st)
      ensures WritesBy(log, c) == WritesBy(old(log), c)
      ensures past == old(past) + [st]
    {
      hide StoreOk, Grows, Mutated, WritesBy;
      OtherClients(c);
      WriterKeepsKnowing(old(st), st, ino, m, ph);
      GrowsTransitive(start, old(st), st);
    }

    /** A command that only reads moves the call to its next phase. */
    ghost method Command(c: CallId, ino: Ino, m: Mutation, ph: WritePhase) returns (next: WritePhase)
      requires Valid() && WriterKnows(st, ino, m, ph) && !ph.WExec?
      ensures next == WriteStep(st, c, ino, m, ph).1 && WriterKnows(st, ino, m, next)
    {
      hide StoreOk, Grows, Mutated, WritesBy;
      next := WriteStep(st, c, ino, m, ph).1;
      WriterReads(st, log, c, ino, m, ph);
    }
  }

  lemma MoreDisturbances(before: seq<Store>, past: seq<Store>, ino: Ino, start: nat, from: nat)
    requires before <= past && |before| == from < |past| && start <= from
    ensures Disturbances(past, ino, start) >= Disturbances(before, ino, start) + Disturbances(past, ino, from)
  {
    DisturbancesAdd(past, ino, start, from);
    if start < from {
      assert past[..from + 1][..from] == before;
    }
  }

  lemma BlobIsItsPreimage(st: Store, log: seq<Event>, d: Digest)
    requires StoreOk(st, log) && d in st.blobs
    ensures st.blobs[d] == d.preimage
  {
    hide LegalLog, Recorded, Charged, Resolvable, FsTree.Tree;
  }

  lemma BlobIsStored(st: Store, ino: Ino, m: Mutation, ph: WritePhase)
    requires WriterKnows(st, ino, m, ph) && ph.WBlob?
    ensures ph.digest in st.blobs
  {
  }

  lemma ExecNeedsLive(st: Store, ino: Ino, m: Mutation, ph: WritePhase)
    requires ph.WExec? && WriterKnows(st, ino, m, ph)
    ensures ph.kv == Ver(st.inodeVer, ino) ==> ino in st.fs.inodes
  {
    hide Mutated;
  }

  lemma ExecReplaces(st: Store, ino: Ino, m: Mutation, ph: WritePhase)
    requires ph.WExec? && WriterKnows(st, ino, m, ph)
    ensures ph.kv == Ver(st.inodeVer, ino) ==> Replaced(st, CommitWrite(st, ino, ph.content), ino, m)
  {
    hide Mutated, CommitWrite, WriteCommitted;
    if ph.kv == Ver(st.inodeVer, ino) { CommitRecord(st, ino, ph.content); }
  }

  lemma CommittedShows(st: Store, ino: Ino, content: Bytes)
    requires exists before: Store :: st == CommitWrite(before, ino, content)
    ensures ino in st.fs.inodes && BytesOf(st, ino) == content
  {
  }

  ghost predicate InRange(st: Store)
  {
    forall i <- st.fs.inodes :: i <= st.fs.nextInode
  }

  lemma StoreInRange(st: Store, log: seq<Event>)
    requires StoreOk(st, log)
    ensures InRange(st)
  {
    hide LegalLog, Recorded, Charged, BlobsOk, Resolvable;
    forall i <- st.fs.inodes ensures i <= st.fs.nextInode { LiveInRange(st.fs, i); }
  }

  lemma GrowsTransitive(a: Store, b: Store, c: Store)
    requires Grows(a, b) && Grows(b, c) && InRange(a)
    ensures Grows(a, c)
  {
    forall i: Ino | Ver(a.inodeVer, i) == Ver(c.inodeVer, i)
      ensures (i in a.fs.inodes <==> i in c.fs.inodes) && MetaOr(a.fs.inodes, i) == MetaOr(c.fs.inodes, i)
    {
      MetaDecides(a, b, i);
      MetaDecides(b, c, i);
    }
    forall i <- a.fs.inodes | i in c.fs.inodes ensures i in b.fs.inodes {}
  }
}
