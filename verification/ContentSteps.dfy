/** Every step of the content protocol keeps its invariant. */
module ContentSteps {
  import opened Wrappers
  import opened Inodes
  import opened ContentBytes
  import opened ContentProtocol
  import opened ContentStore
  import opened ContentInvariant
  import FsTree

  ghost predicate SameKind(p: Proc, q: Proc)
  {
    p.ino == q.ino && (p.Mutate? <==> q.Mutate?) && (p.Resolve? <==> q.Resolve?)
  }

  /** Calls go on under their identity, the store grows, and everyone sees the new state. */
  ghost predicate Continues(s: Sys, s': Sys)
  {
    && Grows(s.st, s'.st)
    && (forall c <- s.procs :: c in s'.procs && SameKind(s.procs[c], s'.procs[c]))
    && s'.seen.Keys == s'.procs.Keys
    && (forall c <- s'.procs :: SeenBy(s', c) == SeenBy(s, c) + {Look(s'.st, s'.procs[c].ino)})
  }

  lemma KeepsKnowing(s: Sys, s': Sys, c: CallId)
    requires Inv(s) && Continues(s, s') && c in s.procs && s'.procs[c] == s.procs[c]
    requires WritesBy(s'.log, c) == WritesBy(s.log, c)
    ensures ProcKnows(s', c)
  {
    hide StoreOk, Witnessed, FuturesOk, WriterKnows, WorkerKnows, Settled, ReaderKnows, Grows, Look;
    assert ProcKnows(s, c);
    match s.procs[c]
    case Mutate(ino, m, ph) => WriterKeepsKnowing(s.st, s'.st, ino, m, ph);
    case Resolve(ino, _, ph) =>
      WorkerKeepsKnowing(s.st, s'.st, ino, ph);
      StaysSettled(s.st, s'.st, ino, WorkerSight(ph));
    case Read(ino, o, ph) => ReaderKeepsKnowing(s.st, s'.st, ino, ph, SeenBy(s, c), SeenBy(s', c));
  }

  /** No worker on this inode has anything to report yet. */
  ghost predicate Quiet(s: Sys, ino: Ino)
  {
    forall w <- s.procs | s.procs[w].Resolve? && s.procs[w].ino == ino :: WorkerSight(s.procs[w].rphase).None?
  }

  ghost predicate SightsMove(s: Sys, s': Sys)
  {
    forall w <- s'.procs | s'.procs[w].Resolve? ::
      var sight := WorkerSight(s'.procs[w].rphase);
      || sight.None?
      || sight == Some(Look(s'.st, s'.procs[w].ino))
      || (w in s.procs && s.procs[w].Resolve? && sight == WorkerSight(s.procs[w].rphase))
  }

  lemma StaysWitnessed(s: Sys, s': Sys)
    requires Witnessed(s) && Continues(s, s') && SightsMove(s, s')
    requires forall c <- s'.procs | Joining(s'.procs[c]) ::
               (c in s.procs && Joining(s.procs[c])) || Quiet(s, s'.procs[c].ino)
    ensures Witnessed(s')
  {
    hide Grows, Look, WorkerSight, SeenBy;
    forall c, w | c in s'.procs && w in s'.procs && Joining(s'.procs[c]) && s'.procs[w].Resolve?
                  && s'.procs[w].ino == s'.procs[c].ino && WorkerSight(s'.procs[w].rphase).Some?
      ensures WorkerSight(s'.procs[w].rphase).value in SeenBy(s', c)
    {
      assert SeenBy(s', c) == SeenBy(s, c) + {Look(s'.st, s'.procs[c].ino)};
      var sight := WorkerSight(s'.procs[w].rphase);
      if sight != Some(Look(s'.st, s'.procs[w].ino)) {
        assert sight == WorkerSight(s.procs[w].rphase);
      }
    }
  }

  lemma KeepsFutures(s: Sys, s': Sys)
    requires FuturesOk(s) && Continues(s, s')
    requires forall key <- s'.futures :: (key in s.futures && s'.futures[key] == s.futures[key]) ||
               (s'.futures[key] in s'.procs && s'.procs[s'.futures[key]].Resolve? && s'.procs[s'.futures[key]].ino == key.1)
    ensures FuturesOk(s')
  {
    hide Grows, Look, SeenBy;
  }

  /** What the preservation lemmas below share: one call `c` moved, all others did not. */
  ghost predicate OneMoved(s: Sys, s': Sys, c: CallId)
  {
    && Continues(s, s')
    && c in s'.procs
    && (forall x <- s'.procs | x != c :: x in s.procs && s'.procs[x] == s.procs[x])
    && (forall x | x != c :: WritesBy(s'.log, x) == WritesBy(s.log, x))
  }

  lemma OneMovedInv(s: Sys, s': Sys, c: CallId)
    requires Inv(s) && OneMoved(s, s', c) && StoreOk(s'.st, s'.log) && ProcKnows(s', c)
    requires Witnessed(s') && FuturesOk(s')
    ensures Inv(s')
  {
    hide StoreOk, Witnessed, FuturesOk, Grows, Look, ProcKnows, SeenBy;
    forall x <- s'.procs ensures ProcKnows(s', x) {
      if x != c { KeepsKnowing(s, s', x); }
    }
  }

  lemma ObservedContinues(s: Sys, s1: Sys)
    requires Inv(s) && Grows(s.st, s1.st) && s1.seen == s.seen
    requires forall c <- s.procs :: c in s1.procs && SameKind(s.procs[c], s1.procs[c])
    ensures Continues(s, Observed(s1))
  {
    hide Grows, Look, StoreOk, Witnessed, FuturesOk, ProcKnows;
    var s' := Observed(s1);
    forall c <- s'.procs ensures SeenBy(s', c) == SeenBy(s, c) + {Look(s'.st, s'.procs[c].ino)} {}
  }

  lemma StartKeepsInv(s: Sys, a: Action)
    requires Inv(s) && Enabled(s, a) && (a.StartWrite? || a.StartRead?)
    ensures Inv(Next(s, a))
  {
    hide StoreOk, Grows, Look, WorkerSight, ProcKnows, WritesBy, Next, Continues, SeenBy;
    var s' := Next(s, a);
    StartMoves(s, a);
    StaysWitnessed(s, s');
    KeepsFutures(s, s');
    StartKnows(s, a);
    OneMovedInv(s, s', a.call);
  }

  lemma StartMoves(s: Sys, a: Action)
    requires Inv(s) && Enabled(s, a) && (a.StartWrite? || a.StartRead?)
    ensures var s' := Next(s, a);
            && OneMoved(s, s', a.call) && SightsMove(s, s') && !Joining(s'.procs[a.call])
            && s'.st == s.st && s'.log == s.log && s'.futures == s.futures
  {
    hide StoreOk, Grows, Look, WorkerSight, ProcKnows, WritesBy, Witnessed, FuturesOk;
    LeaseStepGrows(s.st, s.st);
    ObservedContinues(s, Core(s, a));
  }

  lemma StartKnows(s: Sys, a: Action)
    requires Inv(s) && Enabled(s, a) && (a.StartWrite? || a.StartRead?)
    ensures ProcKnows(Next(s, a), a.call)
  {
    hide StoreOk, Witnessed, FuturesOk, Look, Settled, WorkerKnows;
  }

  lemma WriterKeepsInv(s: Sys, c: CallId, ch: Choice)
    requires Inv(s) && Enabled(s, Advance(c, ch)) && s.procs[c].Mutate?
    ensures Inv(Next(s, Advance(c, ch)))
  {
    hide StoreOk, Grows, Look, WorkerSight, Settled, WriterKnows, WorkerKnows, WriteStep, WritesBy;
    var s' := Next(s, Advance(c, ch));
    var Mutate(ino, m, ph) := s.procs[c];
    assert ProcKnows(s, c);
    WriterStep(s.st, s.log, c, ino, m, ph);
    ObservedContinues(s, Core(s, Advance(c, ch)));
    WriterEvents(s.st, c, ino, m, ph);
    OtherWrites(s.log, WriteStep(s.st, c, ino, m, ph).2, c);
    assert OneMoved(s, s', c);
    StaysWitnessed(s, s');
    KeepsFutures(s, s');
    assert ProcKnows(s', c);
    OneMovedInv(s, s', c);
  }

  lemma WriterEvents(st: Store, c: CallId, ino: Ino, m: Mutation, ph: WritePhase)
    ensures var events := WriteStep(st, c, ino, m, ph).2;
            |events| <= 1 && forall k | 0 <= k < |events| :: events[k].call == c
    ensures ph.WDone? ==> WriteStep(st, c, ino, m, ph) == (st, ph, [])
  {
    hide Mutated;
  }

  lemma OtherWrites(log: seq<Event>, events: seq<Event>, c: CallId)
    requires |events| <= 1 && forall k | 0 <= k < |events| :: events[k].call == c
    ensures forall x | x != c :: WritesBy(log + events, x) == WritesBy(log, x)
  {
    if events == [] {
      assert log + events == log;
    } else {
      assert events == [events[0]];
      AppendEvent(log, events[0]);
    }
  }

  lemma WorkerKeepsInv(s: Sys, c: CallId, ch: Choice)
    requires Inv(s) && Enabled(s, Advance(c, ch)) && s.procs[c].Resolve?
    ensures Inv(Next(s, Advance(c, ch)))
  {
    hide StoreOk, Grows, Look, WorkerSight, Settled, WriterKnows, WorkerKnows, ResolveStep, WritesBy;
    var s' := Next(s, Advance(c, ch));
    var Resolve(ino, o, ph) := s.procs[c];
    assert ProcKnows(s, c);
    WorkerStep(s.st, s.log, c, ino, ph, ch);
    ObservedContinues(s, Core(s, Advance(c, ch)));
    assert OneMoved(s, s', c);
    StaysWitnessed(s, s');
    KeepsFutures(s, s');
    assert ProcKnows(s', c);
    OneMovedInv(s, s', c);
  }

  // ---- Readers ------------------------------------------------------------------------

  /** A reader that sees the inode unwritten finds all its workers still undecided. */
  lemma UnwrittenIsQuiet(s: Sys, ino: Ino)
    requires Inv(s) && Look(s.st, ino).Unwritten?
    ensures Quiet(s, ino)
  {
    hide StoreOk, Witnessed, FuturesOk, WorkerSight, Look;
    forall w <- s.procs | s.procs[w].Resolve? && s.procs[w].ino == ino
      ensures WorkerSight(s.procs[w].rphase).None?
    {
      assert ProcKnows(s, w);
    }
  }

  lemma ReaderStepKnows(s: Sys, c: CallId, ch: Choice)
    requires Inv(s) && Enabled(s, Advance(c, ch)) && s.procs[c].Read?
    ensures var s' := Next(s, Advance(c, ch));
            var Read(ino, o, ph') := s'.procs[c];
            && ReaderKnows(s'.st, ino, ph', SeenBy(s', c))
            && (ph'.GWait? ==> ph'.worker in s'.procs && s'.procs[ph'.worker].Resolve? && s'.procs[ph'.worker].ino == ino)
            && (Joining(s'.procs[c]) ==> Joining(s.procs[c]) || Quiet(s, ino))
  {
    hide Witnessed, FuturesOk, WorkerSight, StoreOk, Settled, WriterKnows, WorkerKnows, Look;
    var Read(ino, o, ph) := s.procs[c];
    var s' := Next(s, Advance(c, ch));
    assert ProcKnows(s, c);
    assert s'.st == s.st;
    assert SeenBy(s', c) == SeenBy(s, c) + {Look(s.st, ino)};
    match ph
    case GMeta => ReaderLooks(s, c, ch);
    case GBlob(d) => ReaderGetsBlob(s, c, ch);
    case GSubmit => ReaderSubmits(s, c, ch);
    case GWait(w) => ReaderWaits(s, c, ch);
    case GDone(r) =>
  }

  lemma ReaderLooks(s: Sys, c: CallId, ch: Choice)
    requires Inv(s) && Enabled(s, Advance(c, ch)) && s.procs[c].Read? && s.procs[c].gphase.GMeta?
    ensures var (ph', starts) := ReadStep(s, s.procs[c].ino, s.procs[c].orch, GMeta, ch);
            && ReaderKnows(s.st, s.procs[c].ino, ph', SeenBy(s, c) + {Look(s.st, s.procs[c].ino)})
            && !ph'.GWait? && !starts
            && (ph'.GSubmit? ==> Quiet(s, s.procs[c].ino))
  {
    hide Witnessed, FuturesOk, WorkerSight, LegalLog, Recorded, Charged, FsTree.Tree, ProcKnows, Quiet, IsReg;
    var ino := s.procs[c].ino;
    if Look(s.st, ino).Unwritten? {
      LiveInRange(s.st.fs, ino);
      UnwrittenIsQuiet(s, ino);
    }
  }

  lemma ReaderGetsBlob(s: Sys, c: CallId, ch: Choice)
    requires Inv(s) && Enabled(s, Advance(c, ch)) && s.procs[c].Read? && s.procs[c].gphase.GBlob?
    ensures var (ph', starts) := ReadStep(s, s.procs[c].ino, s.procs[c].orch, s.procs[c].gphase, ch);
            && ReaderKnows(s.st, s.procs[c].ino, ph', SeenBy(s, c)) && ph'.GDone? && !starts
  {
    hide Witnessed, FuturesOk, WorkerSight, LegalLog, Recorded, Charged, FsTree.Tree;
    assert ProcKnows(s, c);
  }

  lemma ReaderSubmits(s: Sys, c: CallId, ch: Choice)
    requires Inv(s) && Enabled(s, Advance(c, ch)) && s.procs[c].Read? && s.procs[c].gphase.GSubmit?
    ensures var s' := Next(s, Advance(c, ch));
            var ph' := s'.procs[c].gphase;
            && ReaderKnows(s.st, s.procs[c].ino, ph', SeenBy(s, c))
            && (ph'.GWait? ==>
                  ph'.worker in s'.procs && s'.procs[ph'.worker].Resolve? && s'.procs[ph'.worker].ino == s.procs[c].ino)
  {
    hide StoreOk, Witnessed, WorkerSight;
    assert ProcKnows(s, c);
  }

  lemma ReaderWaits(s: Sys, c: CallId, ch: Choice)
    requires Inv(s) && Enabled(s, Advance(c, ch)) && s.procs[c].Read? && s.procs[c].gphase.GWait?
    ensures var (ph', starts) := ReadStep(s, s.procs[c].ino, s.procs[c].orch, s.procs[c].gphase, ch);
            && ReaderKnows(s.st, s.procs[c].ino, ph', SeenBy(s, c)) && !starts
            && (ph' == s.procs[c].gphase || ph'.GDone?)
  {
    hide StoreOk, FuturesOk;
    var w := s.procs[c].gphase.worker;
    assert ProcKnows(s, c);
    assert ProcKnows(s, w);
    if Finished(s.procs[w]) { assert Joining(s.procs[c]); }
  }

  lemma ReaderKeepsInv(s: Sys, c: CallId, ch: Choice)
    requires Inv(s) && Enabled(s, Advance(c, ch)) && s.procs[c].Read?
    ensures Inv(Next(s, Advance(c, ch)))
  {
    hide StoreOk, Grows, Look, ProcKnows, Witnessed, FuturesOk, SeenBy, ReadStep;
    var s' := Next(s, Advance(c, ch));
    ReaderContinues(s, c, ch);
    forall x <- s'.procs ensures ProcKnows(s', x) {
      if x == c {
        ReaderStepKnows(s, c, ch);
        ReaderIsKnowing(s', c);
      } else if x in s.procs {
        KeepsKnowing(s, s', x);
      } else {
        NewWorkerKnows(s, c, ch);
        FreshIsKnowing(s', x);
      }
    }
  }

  lemma ReaderContinues(s: Sys, c: CallId, ch: Choice)
    requires Inv(s) && Enabled(s, Advance(c, ch)) && s.procs[c].Read?
    ensures var s' := Next(s, Advance(c, ch));
            Continues(s, s') && Witnessed(s') && FuturesOk(s') && s'.st == s.st && s'.log == s.log
  {
    hide StoreOk, Grows, Look, ProcKnows, SeenBy, ReadStep, ReaderKnows, Witnessed, FuturesOk;
    var s' := Next(s, Advance(c, ch));
    LeaseStepGrows(s.st, s.st);
    ObservedContinues(s, Core(s, Advance(c, ch)));
    assert FuturesOk(s') by { ReaderFutures(s, c, ch); }
    assert Witnessed(s') by { ReaderWitnessed(s, c, ch); }
  }

  lemma ReaderFutures(s: Sys, c: CallId, ch: Choice)
    requires Inv(s) && Enabled(s, Advance(c, ch)) && s.procs[c].Read?
    requires Continues(s, Next(s, Advance(c, ch)))
    ensures FuturesOk(Next(s, Advance(c, ch)))
  {
    hide StoreOk, Continues, Look, ProcKnows, SeenBy, ReadStep, Witnessed;
    KeepsFutures(s, Next(s, Advance(c, ch)));
  }

  lemma ReaderWitnessed(s: Sys, c: CallId, ch: Choice)
    requires Inv(s) && Enabled(s, Advance(c, ch)) && s.procs[c].Read?
    requires Continues(s, Next(s, Advance(c, ch)))
    ensures Witnessed(Next(s, Advance(c, ch)))
  {
    hide StoreOk, Continues, Look, ProcKnows, SeenBy, ReadStep, ReaderKnows, Witnessed, FuturesOk;
    ReaderStepKnows(s, c, ch);
    StaysWitnessed(s, Next(s, Advance(c, ch)));
  }

  lemma ReaderIsKnowing(s: Sys, c: CallId)
    requires c in s.procs && s.procs[c].Read?
    requires ReaderKnows(s.st, s.procs[c].ino, s.procs[c].gphase, SeenBy(s, c))
    requires var ph := s.procs[c].gphase;
             ph.GWait? ==> ph.worker in s.procs && s.procs[ph.worker].Resolve? && s.procs[ph.worker].ino == s.procs[c].ino
    ensures ProcKnows(s, c)
  {
  }

  lemma FreshIsKnowing(s: Sys, w: CallId)
    requires w in s.procs && s.procs[w].Resolve? && s.procs[w].rphase == RClaim
    requires WorkerKnows(s.st, s.procs[w].ino, RClaim) && Settled(s.st, s.procs[w].ino, WorkerSight(RClaim))
    ensures ProcKnows(s, w)
  {
  }

  lemma NewWorkerKnows(s: Sys, c: CallId, ch: Choice)
    requires Inv(s) && Enabled(s, Advance(c, ch)) && s.procs[c].Read?
    requires ReadStep(s, s.procs[c].ino, s.procs[c].orch, s.procs[c].gphase, ch).1
    ensures WorkerKnows(s.st, s.procs[c].ino, RClaim) && Settled(s.st, s.procs[c].ino, WorkerSight(RClaim))
  {
    hide StoreOk, Witnessed, FuturesOk;
    assert ProcKnows(s, c);
  }

  // ---- The environment -----------------------------------------------------------------

  lemma EnvironmentKeepsInv(s: Sys, s1: Sys)
    requires Inv(s) && Grows(s.st, s1.st) && StoreOk(s1.st, s.log)
    requires s1.procs == s.procs && s1.seen == s.seen && s1.log == s.log
    requires forall key <- s1.futures :: key in s.futures && s1.futures[key] == s.futures[key]
    ensures Inv(Observed(s1))
  {
    hide StoreOk, Grows, Look, ProcKnows, WorkerSight, Joining;
    var s' := Observed(s1);
    ObservedContinues(s, s1);
    StaysWitnessed(s, s');
    KeepsFutures(s, s');
    forall x <- s'.procs ensures ProcKnows(s', x) { KeepsKnowing(s, s', x); }
  }

  /** Every step keeps the invariant. */
  lemma StepKeepsInv(s: Sys, a: Action)
    requires Inv(s) && Enabled(s, a)
    ensures Inv(Next(s, a))
  {
    hide StoreOk, Grows, Look, ProcKnows, Witnessed, FuturesOk, Observed, AdvanceCall, FsTree.Apply, Touched;
    match a
    case StartWrite(_, _, _) => StartKeepsInv(s, a);
    case StartRead(_, _, _) => StartKeepsInv(s, a);
    case Advance(c, ch) =>
      if s.procs[c].Mutate? { WriterKeepsInv(s, c, ch); }
      else if s.procs[c].Resolve? { WorkerKeepsInv(s, c, ch); }
      else { ReaderKeepsInv(s, c, ch); }
    case Script(call, versions) =>
      StoreHasTree(s.st, s.log);
      ScriptGrows(s.st, call, versions);
      ScriptKeepsStore(s.st, s.log, call, versions);
      EnvironmentKeepsInv(s, Core(s, a));
    case Expire(ino, touched) =>
      LeaseStepGrows(s.st, Core(s, a).st);
      LeaseStepKeepsStore(s.st, Core(s, a).st, s.log);
      EnvironmentKeepsInv(s, Core(s, a));
    case Forget(_, _) =>
      LeaseStepGrows(s.st, s.st);
      EnvironmentKeepsInv(s, Core(s, a));
  }

  lemma StoreHasTree(st: Store, log: seq<Event>)
    requires StoreOk(st, log)
    ensures FsTree.Tree(st.fs)
  {
    hide FsTree.Tree, BlobsOk, Resolvable, LegalLog, Recorded, Charged;
  }

  /** What no step undoes, whoever takes it. */
  lemma StepGrows(s: Sys, a: Action)
    requires Inv(s) && Enabled(s, a)
    ensures Grows(s.st, Next(s, a).st)
    ensures s.log <= Next(s, a).log
  {
    hide StoreOk, Grows, Look, Witnessed, FuturesOk, FsTree.Apply, Touched, WriteStep, ResolveStep, ReadStep;
    LeaseStepGrows(s.st, s.st);
    match a
    case StartWrite(_, _, _) =>
    case StartRead(_, _, _) =>
    case Advance(c, ch) =>
      assert ProcKnows(s, c);
      match s.procs[c] {
        case Mutate(ino, m, ph) => WriterStep(s.st, s.log, c, ino, m, ph);
        case Resolve(ino, o, ph) => WorkerStep(s.st, s.log, c, ino, ph, ch);
        case Read(ino, o, ph) =>
      }
    case Script(call, versions) =>
      StoreHasTree(s.st, s.log);
      ScriptGrows(s.st, call, versions);
    case Expire(ino, touched) => LeaseStepGrows(s.st, Core(s, a).st);
    case Forget(_, _) =>
  }

  lemma {:induction false} RunKeepsInv(run: seq<Sys>, actions: seq<Action>, t: nat)
    requires Run(run, actions) && t < |run|
    ensures Inv(run[t])
    decreases t
  {
    hide Inv, Enabled, Next, Initial;
    if t == 0 {
      InitialInv(run[0]);
    } else {
      RunKeepsInv(run, actions, t - 1);
      assert Steps(run[t - 1], actions[t - 1], run[t]);
      StepKeepsInv(run[t - 1], actions[t - 1]);
    }
  }
}
