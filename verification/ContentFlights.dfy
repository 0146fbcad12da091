/** Reads of one orchestrator share a worker, and "not a regular file" is never said of
    anything else. */
module ContentFlights {
  import opened Wrappers
  import opened Inodes
  import opened ContentProtocol
  import opened ContentInvariant
  import opened ContentRecords

  // ---- One worker at a time --------------------------------------------------------------------

  predicate Working(s: Sys, w: CallId, orch: Orchestrator, ino: Ino)
  {
    w in s.procs && s.procs[w].Resolve? && s.procs[w].orch == orch && s.procs[w].ino == ino && !s.procs[w].rphase.RDone?
  }

  /** A worker that is not done is the one its orchestrator's future names. */
  ghost predicate Named(s: Sys)
  {
    forall w: CallId, orch: Orchestrator, ino: Ino | Working(s, w, orch, ino) :: (orch, ino) in s.futures && s.futures[(orch, ino)] == w
  }

  lemma StepKeepsNamed(s: Sys, a: Action)
    requires Named(s) && Enabled(s, a) && (a.Advance? ==> a.call in s.procs)
    ensures Named(Core(s, a))
  {
    hide ResolveStep, WriteStep, Touched;
    var s' := Core(s, a);
    forall w: CallId, orch: Orchestrator, ino: Ino | Working(s', w, orch, ino) ensures (orch, ino) in s'.futures && s'.futures[(orch, ino)] == w {
      if a.Advance? {
        AdvancedWorker(s, a.call, a.choice, w, orch, ino);
      } else {
        assert Working(s, w, orch, ino);
      }
    }
  }

  lemma AdvancedWorker(s: Sys, c: CallId, ch: Choice, w: CallId, orch: Orchestrator, ino: Ino)
    requires Named(s) && Enabled(s, Advance(c, ch)) && c in s.procs && Working(AdvanceCall(s, c, ch), w, orch, ino)
    ensures var s' := AdvanceCall(s, c, ch); (orch, ino) in s'.futures && s'.futures[(orch, ino)] == w
  {
    hide WriteStep;
    if c == w {
      assert Working(s, w, orch, ino) by {
        if s.procs[c].Resolve? && s.procs[c].rphase.RDone? { DoneIsDone(s, c, ch); }
      }
    } else if w in s.procs {
      assert Working(s, w, orch, ino);
    }
  }

  lemma DoneIsDone(s: Sys, c: CallId, ch: Choice)
    requires c in s.procs && s.procs[c].Resolve? && s.procs[c].rphase.RDone?
    ensures ResolveStep(s.st, c, s.procs[c].ino, s.procs[c].rphase, ch).1.RDone?
  {
  }

  lemma {:induction false} RunIsNamed(run: seq<Sys>, actions: seq<Action>, t: nat)
    requires Run(run, actions) && t < |run|
    ensures Named(run[t])
    decreases t
  {
    if t > 0 {
      hide Named, Enabled, Core;
      RunIsNamed(run, actions, t - 1);
      var s, a := OneStep(run, actions, t);
      StepKeepsNamed(s, a);
      ObservedIsNamed(Core(s, a));
    }
  }

  lemma ObservedIsNamed(s: Sys)
    requires Named(s)
    ensures Named(Observed(s))
  {
    assert forall w: CallId, orch: Orchestrator, ino: Ino :: Working(Observed(s), w, orch, ino) <==> Working(s, w, orch, ino);
  }

  /** In every run an orchestrator has at most one worker at a time for an inode, however
      many reads wait for it. */
  lemma SingleFlight(run: seq<Sys>, actions: seq<Action>, t: nat, v: CallId, w: CallId, orch: Orchestrator, ino: Ino)
    requires Run(run, actions) && t < |run| && Working(run[t], v, orch, ino) && Working(run[t], w, orch, ino)
    ensures v == w
  {
    RunIsNamed(run, actions, t);
  }

  /** A read joins the worker there is, gives up if the pool is full, or else starts one;
      nothing but a read starts a worker. */
  lemma WorkersAreStartedByReads(s: Sys, a: Action, w: CallId)
    requires Enabled(s, a) && (a.Advance? ==> a.call in s.procs) && w in Core(s, a).procs && w !in s.procs && Core(s, a).procs[w].Resolve?
    ensures a.Advance? && a.choice.worker == w && !a.choice.refused
    ensures var p := s.procs[a.call];
            && p.Read? && p.gphase == GSubmit && (p.orch, p.ino) !in s.futures
            && Core(s, a).procs[w] == Resolve(p.ino, p.orch, RClaim)
            && Core(s, a).procs[a.call] == Read(p.ino, p.orch, GWait(w))
            && Core(s, a).futures == s.futures[(p.orch, p.ino) := w]
  {
    hide ResolveStep, WriteStep, Touched;
  }

  /** A read looks, then fetches or waits, and each step brings it on: after the look at
      most one more before it waits or is done, and it waits only for a worker that has not
      finished, whose result it then returns. */
  lemma ReadsMove(s: Sys, c: CallId, ch: Choice)
    requires Enabled(s, Advance(c, ch)) && s.procs[c].Read?
    ensures c in Core(s, Advance(c, ch)).procs
    ensures var p, p' := s.procs[c], Core(s, Advance(c, ch)).procs[c];
            && p'.Read? && p'.ino == p.ino && p'.orch == p.orch
            && match p.gphase
               case GMeta => p'.gphase.GDone? || p'.gphase.GBlob? || p'.gphase == GSubmit
               case GBlob(_) => p'.gphase.GDone?
               case GSubmit => p'.gphase.GWait? || p'.gphase == GDone(Nothing)
               case GWait(w) =>
                 if ch.timeout then p'.gphase == GDone(Nothing)
                 else if w in s.procs && s.procs[w].Resolve? && s.procs[w].rphase.RDone? then
                   p'.gphase == GDone(s.procs[w].rphase.result)
                 else p'.gphase == p.gphase
               case GDone(_) => p'.gphase == p.gphase
  {
    hide Eligible;
  }

  // ---- Not a file --------------------------------------------------------------------------------

  predicate Says(p: Proc, result: ReadResult)
  {
    (p.Read? && p.gphase == GDone(result)) ||
    (p.Resolve? && (p.rphase == RDone(result) || (p.rphase.RRelease? && p.rphase.result == result)))
  }

  /** Call `c` reads inode `ino`, which is live and not a regular file. */
  ghost predicate SawNoFile(run: seq<Sys>, j: nat, c: CallId)
  {
    && j < |run| && c in run[j].procs && run[j].procs[c].Read?
    && run[j].procs[c].ino in run[j].st.fs.inodes && run[j].st.fs.inodes[run[j].procs[c].ino].mode / 0x1000 % 0x10 != 8
  }

  /** Nobody says so by then but a read that saw it. */
  ghost predicate Honest(run: seq<Sys>, t: nat)
    requires t < |run|
  {
    forall c <- run[t].procs | Says(run[t].procs[c], NotRegular) :: run[t].procs[c].Read? && exists j | 0 <= j <= t :: SawNoFile(run, j, c)
  }

  lemma NewlySaid(s: Sys, a: Action, c: CallId)
    requires Enabled(s, a) && (a.Advance? ==> a.call in s.procs)
    requires forall x <- s.procs | Says(s.procs[x], NotRegular) :: s.procs[x].Read?
    requires c in Core(s, a).procs && Says(Core(s, a).procs[c], NotRegular) && !(c in s.procs && Says(s.procs[c], NotRegular))
    ensures c in s.procs && s.procs[c].Read? && Core(s, a).procs[c].Read?
    ensures s.procs[c].ino in s.st.fs.inodes && s.st.fs.inodes[s.procs[c].ino].mode / 0x1000 % 0x10 != 8
  {
    hide WriteStep, Touched, Eligible, InstallGenerated;
    if a.Advance? {
      match s.procs[a.call]
      case Resolve(ino, _, ph) => WorkersNeverSay(s.st, a.call, ino, ph, a.choice);
      case _ =>
    }
  }

  lemma WorkersNeverSay(st: Store, c: CallId, ino: Ino, ph: ResolvePhase, ch: Choice)
    requires !Says(Resolve(ino, 0, ph), NotRegular)
    ensures !Says(Resolve(ino, 0, ResolveStep(st, c, ino, ph, ch).1), NotRegular)
  {
    hide InstallGenerated;
  }

  /** What was said stays said by the same call. */
  lemma SaidBefore(s: Sys, a: Action, c: CallId)
    requires Enabled(s, a) && (a.Advance? ==> a.call in s.procs) && c in s.procs && s.procs[c].Read?
    ensures c in Core(s, a).procs && Core(s, a).procs[c].Read?
  {
    hide WriteStep, ResolveStep, Touched;
  }

  lemma {:induction false} RunIsHonest(run: seq<Sys>, actions: seq<Action>, t: nat)
    requires Run(run, actions) && t < |run|
    ensures Honest(run, t)
    decreases t
  {
    hide Enabled, Core, Says, SawNoFile, Initial;
    if t == 0 {
      NobodyYet(run[0]);
    } else {
      RunIsHonest(run, actions, t - 1);
      var s, a := OneStep(run, actions, t);
      assert run[t].procs == Core(s, a).procs;
      forall c <- run[t].procs | Says(run[t].procs[c], NotRegular)
        ensures run[t].procs[c].Read? && exists j | 0 <= j <= t :: SawNoFile(run, j, c)
      {
        if c in s.procs && Says(s.procs[c], NotRegular) {
          var j :| 0 <= j <= t - 1 && SawNoFile(run, j, c);
          SaidBefore(s, a, c);
        } else {
          NewlySaid(s, a, c);
          assert SawNoFile(run, t - 1, c) by { SeesNow(run, t - 1, c); }
        }
      }
    }
  }

  lemma NobodyYet(s: Sys)
    requires Initial(s)
    ensures s.procs == map[]
  {
  }

  lemma SeesNow(run: seq<Sys>, j: nat, c: CallId)
    requires j < |run| && c in run[j].procs && run[j].procs[c].Read?
    requires run[j].procs[c].ino in run[j].st.fs.inodes && run[j].st.fs.inodes[run[j].procs[c].ino].mode / 0x1000 % 0x10 != 8
    ensures SawNoFile(run, j, c)
  {
  }

  /** A read that fails with "not a regular file" had, at some moment of its call, a live
      inode that is none. */
  lemma NotRegularIsRight(run: seq<Sys>, actions: seq<Action>, e: nat, c: CallId)
    requires Run(run, actions) && e < |run| && c in run[e].procs && run[e].procs[c].Read? && run[e].procs[c].gphase == GDone(NotRegular)
    ensures exists j | 0 <= j <= e :: SawNoFile(run, j, c)
  {
    RunIsHonest(run, actions, e);
    assert Says(run[e].procs[c], NotRegular);
  }
}
