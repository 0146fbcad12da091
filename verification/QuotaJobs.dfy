/** What one script call grants, and what one job may do with what it was granted. */
module QuotaJobs {
  import opened Quota

  // ---- The script ------------------------------------------------------------------------------

  /** The counter's value while it lives, else zero. */
  predicate Shows(counters: Counters, k: Key, now: nat, value: nat)
  {
    if k in counters && now < counters[k].deadline then counters[k].value == value else value == 0
  }

  /** Granted exactly if the session's counter is below the limit and the global one below
      60; both then count one more and live two more minutes, and no other counter changes. */
  lemma ScriptGrants(counters: Counters, sid: string, window: nat, limit: nat, now: nat, mine: nat, all: nat)
    requires Shows(counters, Key(OfSession(sid), window), now, mine) && Shows(counters, Key(Global, window), now, all)
    ensures Allows(counters, sid, window, limit, now) <==> mine < limit && all < 60
    ensures var counters' := BumpBoth(counters, sid, window, now);
            && counters'.Keys == counters.Keys + {Key(OfSession(sid), window), Key(Global, window)}
            && counters'[Key(OfSession(sid), window)] == Counter(mine + 1, now + 120000)
            && counters'[Key(Global, window)] == Counter(all + 1, now + 120000)
            && forall k <- counters | k != Key(OfSession(sid), window) && k != Key(Global, window) :: counters'[k] == counters[k]
  {
  }

  // ---- One job ----------------------------------------------------------------------------------

  datatype Move = Started | Asked(granted: bool) | TimedOut | Called | Answered(accepted: bool) | Retried

  /** The job an action belongs to, and the action as a move of that job. */
  function JobOf(a: Action): JobId
    requires !a.Tick?
  {
    a.job
  }

  function MoveOf(a: Action, granted: bool): Move
    requires !a.Tick?
  {
    match a
    case Start(_, _) => Started
    case Eval(_) => Asked(granted)
    case Deadline(_) => TimedOut
    case CallModel(_) => Called
    case Answer(_, accepted) => Answered(accepted)
    case Retry(_) => Retried
  }

  /** The job's moves among the first `n` actions; an asking move was granted if the list
      of grants grew. */
  function Moves(run: seq<System>, actions: seq<Action>, n: nat, j: JobId): seq<Move>
    requires |run| == |actions| + 1 && n <= |actions|
  {
    if n == 0 then []
    else
      var before, a := Moves(run, actions, n - 1, j), actions[n - 1];
      if a.Tick? || JobOf(a) != j then before
      else before + [MoveOf(a, |run[n].grants| > |run[n - 1].grants|)]
  }

  /** A job asks once and, if granted, calls the model unless its time is up. A rejected
      answer leaves it one more try, which asks again; there is no third. */
  predicate Legal(h: seq<Move>)
  {
    || h <= [Started, Asked(false)]
    || h <= [Started, Asked(true), TimedOut]
    || h <= [Started, Asked(true), Called, Answered(true)]
    || h <= [Started, Asked(true), Called, Answered(false), TimedOut]
    || h <= [Started, Asked(true), Called, Answered(false), Retried, Asked(false)]
    || h <= [Started, Asked(true), Called, Answered(false), Retried, Asked(true), Called, Answered(true)]
    || h <= [Started, Asked(true), Called, Answered(false), Retried, Asked(true), Called, Answered(false)]
  }

  /** Where a job with that history stands. */
  predicate Stands(y: System, j: JobId, h: seq<Move>)
  {
    if |h| == 0 then j !in y.jobs
    else
      && j in y.jobs
      && var job := y.jobs[j].1;
         if |h| == 1 then job.Asking? && job.attempt == 0
         else if |h| == 2 then (if h[1] == Asked(true) then job.Holding? && job.attempt == 0 else job == Finished)
         else if |h| == 3 then (if h[2] == Called then job == InModel(0) else job == Finished)
         else if |h| == 4 then (if h[3] == Answered(false) then job == Between(1) else job == Finished)
         else if |h| == 5 then (if h[4] == Retried then job.Asking? && job.attempt == 1 else job == Finished)
         else if |h| == 6 then (if h[5] == Asked(true) then job.Holding? && job.attempt == 1 else job == Finished)
         else if |h| == 7 then job == InModel(1)
         else job == Finished
  }

  /** The moves that may follow a history. */
  predicate Follows(h: seq<Move>, m: Move)
  {
    if |h| == 0 then m == Started
    else if |h| == 1 then m.Asked?
    else if |h| == 2 then h[1] == Asked(true) && (m == Called || m == TimedOut)
    else if |h| == 3 then h[2] == Called && m.Answered?
    else if |h| == 4 then h[3] == Answered(false) && (m == Retried || m == TimedOut)
    else if |h| == 5 then h[4] == Retried && m.Asked?
    else if |h| == 6 then h[5] == Asked(true) && m == Called
    else |h| == 7 && m.Answered?
  }

  lemma LegalFollows(h: seq<Move>, m: Move)
    requires Legal(h)
    ensures Legal(h + [m]) <==> Follows(h, m)
  {
    var next := h + [m];
    assert |next| == |h| + 1 && next[|h|] == m && forall i | 0 <= i < |h| :: next[i] == h[i];
  }

  lemma MovesWhenFollowing(y: System, a: Action, granted: bool, h: seq<Move>)
    requires !a.Tick? && Legal(h) && Stands(y, JobOf(a), h)
    ensures Enabled(y, a) <==> Follows(h, MoveOf(a, granted))
  {
  }

  lemma StandsAfter(y: System, a: Action, h: seq<Move>)
    requires !a.Tick? && Enabled(y, a) && Legal(h) && Stands(y, JobOf(a), h)
    ensures var m := MoveOf(a, |Next(y, a).grants| > |y.grants|); Stands(Next(y, a), JobOf(a), h + [m])
  {
    hide Allows, BumpBoth;
    MovesWhenFollowing(y, a, |Next(y, a).grants| > |y.grants|, h);
  }

  lemma OthersStand(y: System, a: Action, j: JobId, h: seq<Move>)
    requires Enabled(y, a) && Stands(y, j, h) && (a.Tick? || JobOf(a) != j)
    ensures Stands(Next(y, a), j, h)
  {
    hide Allows, BumpBoth;
  }

  lemma {:induction false} RunIsLegal(run: seq<System>, actions: seq<Action>, t: nat, j: JobId)
    requires Run(run, actions) && t < |run|
    ensures Legal(Moves(run, actions, t, j)) && Stands(run[t], j, Moves(run, actions, t, j))
    decreases t
  {
    hide Legal, Stands, Next, Enabled;
    if t == 0 {
      NoMoves(run[0], j);
    } else {
      RunIsLegal(run, actions, t - 1, j);
      var y, a, h := run[t - 1], actions[t - 1], Moves(run, actions, t - 1, j);
      assert Steps(y, a, run[t]);
      if a.Tick? || JobOf(a) != j {
        OthersStand(y, a, j, h);
      } else {
        var granted := |run[t].grants| > |y.grants|;
        MovesWhenFollowing(y, a, granted, h);
        LegalFollows(h, MoveOf(a, granted));
        StandsAfter(y, a, h);
      }
    }
  }

  lemma NoMoves(y: System, j: JobId)
    requires Initial(y)
    ensures Legal([]) && Stands(y, j, [])
  {
  }

  /** In every run each job's history is legal, and the job may go on in exactly the ways
      that keep it so: at most two requests and two calls, each call on its own grant. */
  lemma JobsAreLegal(run: seq<System>, actions: seq<Action>, t: nat, a: Action, granted: bool)
    requires Run(run, actions) && t < |run| && !a.Tick?
    ensures Legal(Moves(run, actions, t, JobOf(a)))
    ensures Enabled(run[t], a) <==> Legal(Moves(run, actions, t, JobOf(a)) + [MoveOf(a, granted)])
  {
    hide Legal, Stands, Enabled;
    var h := Moves(run, actions, t, JobOf(a));
    RunIsLegal(run, actions, t, JobOf(a));
    MovesWhenFollowing(run[t], a, granted, h);
    LegalFollows(h, MoveOf(a, granted));
  }
}
