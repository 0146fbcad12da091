/** A write ends: 32 tries of five commands each, and the check of its arguments. */
module ContentTries {
  import opened Wrappers
  import opened Inodes
  import opened ContentBytes
  import opened ContentProtocol

  /** How many commands a write may still issue. */
  function Left(ph: WritePhase): int
  {
    match ph
    case WArgs => 161
    case WWatch(tries) => 5 * tries
    case WMeta(tries, _, _) => 5 * tries - 1
    case WBlob(tries, _, _, _) => 5 * tries - 2
    case WAlloc(tries, _, _, _) => 5 * tries - 3
    case WExec(tries, _, _, _, _) => 5 * tries - 4
    case WDone(_) => 0
  }

  /** A try is under way. */
  predicate Trying(ph: WritePhase)
  {
    match ph
    case WWatch(tries) => tries >= 1
    case WMeta(tries, _, _) => tries >= 1
    case WBlob(tries, _, _, _) => tries >= 1
    case WAlloc(tries, _, _, _) => tries >= 1
    case WExec(tries, _, _, _, _) => tries >= 1
    case _ => true
  }

  lemma StepCosts(st: Store, c: CallId, ino: Ino, m: Mutation, ph: WritePhase)
    requires Trying(ph) && !ph.WDone?
    ensures var ph' := WriteStep(st, c, ino, m, ph).1; Trying(ph') && 0 <= Left(ph') < Left(ph)
  {
    hide CommitWrite, Mutated;
  }

  /** How many of the first `t` actions let call `c` issue a command before it is done. */
  function Commands(run: seq<Sys>, actions: seq<Action>, t: nat, c: CallId): nat
    requires |run| == |actions| + 1 && t <= |actions|
  {
    if t == 0 then 0
    else
      var issued := actions[t - 1].Advance? && actions[t - 1].call == c && Unfinished(run[t - 1], c);
      Commands(run, actions, t - 1, c) + if issued then 1 else 0
  }

  predicate Unfinished(s: Sys, c: CallId)
  {
    c in s.procs && s.procs[c].Mutate? && !s.procs[c].wphase.WDone?
  }

  /** The commands issued and those left never exceed the total. */
  predicate Bounded(s: Sys, c: CallId, issued: nat)
  {
    if c in s.procs && s.procs[c].Mutate? then
      Trying(s.procs[c].wphase) && 0 <= Left(s.procs[c].wphase) && issued + Left(s.procs[c].wphase) <= 161
    else issued == 0
  }

  lemma OwnCommand(s: Sys, c: CallId, ch: Choice, issued: nat)
    requires Enabled(s, Advance(c, ch)) && Bounded(s, c, issued)
    ensures Bounded(Next(s, Advance(c, ch)), c, issued + if Unfinished(s, c) then 1 else 0)
  {
    hide WriteStep, ResolveStep, ReadStep, Look, SeenBy;
    if Unfinished(s, c) {
      var Mutate(ino, m, ph) := s.procs[c];
      StepCosts(s.st, c, ino, m, ph);
    } else if s.procs[c].Mutate? {
      DoneStays(s.st, c, s.procs[c].ino, s.procs[c].mutation, s.procs[c].wphase);
    }
  }

  lemma DoneStays(st: Store, c: CallId, ino: Ino, m: Mutation, ph: WritePhase)
    requires ph.WDone?
    ensures WriteStep(st, c, ino, m, ph).1 == ph
  {
  }

  lemma OtherCommand(s: Sys, a: Action, c: CallId, issued: nat)
    requires Enabled(s, a) && Bounded(s, c, issued) && !(a.Advance? && a.call == c)
    ensures Bounded(Next(s, a), c, issued)
  {
    hide WriteStep, ResolveStep, ReadStep, Look, SeenBy, Touched, Left;
    if a.StartWrite? && a.call == c { FromTheStart(); }
  }

  lemma FromTheStart()
    ensures Left(WArgs) == 161
  {
  }

  lemma {:induction false} RunIsBounded(run: seq<Sys>, actions: seq<Action>, t: nat, c: CallId)
    requires Run(run, actions) && t < |run|
    ensures Bounded(run[t], c, Commands(run, actions, t, c))
    decreases t
  {
    hide Next, Enabled, Bounded, Initial, Unfinished;
    if t == 0 {
      NothingIssued(run[0], c);
    } else {
      RunIsBounded(run, actions, t - 1, c);
      var s, a := run[t - 1], actions[t - 1];
      assert Steps(s, a, run[t]);
      if a.Advance? && a.call == c {
        OwnCommand(s, c, a.choice, Commands(run, actions, t - 1, c));
      } else {
        OtherCommand(s, a, c, Commands(run, actions, t - 1, c));
      }
    }
  }

  lemma NothingIssued(s: Sys, c: CallId)
    requires Initial(s)
    ensures Bounded(s, c, 0)
  {
  }

  /** Whatever the others do, a write is done after at most 161 commands of its own. */
  lemma WritesEnd(run: seq<Sys>, actions: seq<Action>, t: nat, c: CallId)
    requires Run(run, actions) && t < |run| && c in run[t].procs && run[t].procs[c].Mutate?
    ensures Commands(run, actions, t, c) <= 161
    ensures Commands(run, actions, t, c) == 161 ==> run[t].procs[c].wphase.WDone?
  {
    RunIsBounded(run, actions, t, c);
  }
}
