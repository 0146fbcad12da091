/** The per-minute model-call quota: two expiring counters per window, bumped by one
    script, and the jobs that spend what it grants. Time is in milliseconds, and Redis
    and its clients read the same clock. */
module Quota {

  const WINDOW: nat := 60000
  const EXPIRY: nat := 120000
  const GLOBAL_LIMIT: nat := 60

  /** `chronos:quota:<session>:<window>` or `chronos:quota:global:<window>`. */
  datatype Scope = OfSession(sid: string) | Global
  datatype Key = Key(scope: Scope, window: nat)
  datatype Counter = Counter(value: nat, deadline: nat)

  type Counters = map<Key, Counter>

  /** GET: an expired counter reads as absent. */
  function Get(counters: Counters, k: Key, now: nat): nat
  {
    if k in counters && now < counters[k].deadline then counters[k].value else 0
  }

  function Bump(counters: Counters, k: Key, now: nat): Counters
  {
    counters[k := Counter(Get(counters, k, now) + 1, now + EXPIRY)]
  }

  predicate Allows(counters: Counters, sid: string, window: nat, limit: nat, now: nat)
  {
    Get(counters, Key(OfSession(sid), window), now) < limit && Get(counters, Key(Global, window), now) < GLOBAL_LIMIT
  }

  function BumpBoth(counters: Counters, sid: string, window: nat, now: nat): Counters
  {
    Bump(Bump(counters, Key(OfSession(sid), window), now), Key(Global, window), now)
  }

  /** The script as it runs on the shared store. */
  class QuotaRedis {
    var counters: Counters

    method Eval(sid: string, window: nat, limit: nat, now: nat) returns (granted: bool)
      modifies this
      ensures granted == Allows(old(counters), sid, window, limit, now)
      ensures counters == if granted then BumpBoth(old(counters), sid, window, now) else old(counters)
    {
      var mine, all := Key(OfSession(sid), window), Key(Global, window);
      var a := Get(counters, mine, now);
      var b := Get(counters, all, now);
      if a >= limit || b >= GLOBAL_LIMIT { return false; }
      counters := counters[mine := Counter(a + 1, now + EXPIRY)];
      counters := counters[all := Counter(b + 1, now + EXPIRY)];
      return true;
    }
  }

  // ---- Jobs -------------------------------------------------------------------------

  /** One script call that said yes. */
  datatype Grant = Grant(sid: string, window: nat, time: nat)

  /** Where a job stands: about to send the script for the window it computed earlier;
      holding grant number `grant`; in the model; between attempts; done. */
  datatype Job =
    | Asking(attempt: nat, window: nat)
    | Holding(attempt: nat, grant: nat)
    | InModel(attempt: nat)
    | Between(attempt: nat)
    | Finished

  type JobId = nat

  /** `grants` and `spent` record history: every grant, and those a call was made on. */
  datatype System = System(
    now: nat,
    limit: nat,
    counters: Counters,
    jobs: map<JobId, (string, Job)>,
    grants: seq<Grant>,
    spent: set<nat>,
    calls: nat)

  datatype Action =
    | Tick(to: nat)
    | Start(job: JobId, sid: string)
    | Eval(job: JobId)
    | Deadline(job: JobId)
    | CallModel(job: JobId)
    | Answer(job: JobId, accepted: bool)
    | Retry(job: JobId)

  predicate Enabled(y: System, a: Action)
  {
    match a
    case Tick(to) => y.now <= to
    case Start(j, _) => j !in y.jobs
    case Eval(j) => j in y.jobs && y.jobs[j].1.Asking?
    case Deadline(j) => j in y.jobs && ((y.jobs[j].1.Holding? && y.jobs[j].1.attempt == 0) || y.jobs[j].1.Between?)
    case CallModel(j) => j in y.jobs && y.jobs[j].1.Holding?
    case Answer(j, _) => j in y.jobs && y.jobs[j].1.InModel?
    case Retry(j) => j in y.jobs && y.jobs[j].1.Between?
  }

  function SetJob(y: System, j: JobId, job: Job): System
    requires j in y.jobs
  {
    y.(jobs := y.jobs[j := (y.jobs[j].0, job)])
  }

  /** The first attempt asks before the job's deadline starts; a second one asks after the
      deadline check. A refused first request means no model call at all. */
  function Next(y: System, a: Action): System
    requires Enabled(y, a)
  {
    match a
    case Tick(to) => y.(now := to)
    case Start(j, sid) => y.(jobs := y.jobs[j := (sid, Asking(0, y.now / WINDOW))])
    case Eval(j) =>
      var (sid, job) := y.jobs[j];
      if Allows(y.counters, sid, job.window, y.limit, y.now) then
        SetJob(y, j, Holding(job.attempt, |y.grants|)).(
          counters := BumpBoth(y.counters, sid, job.window, y.now),
          grants := y.grants + [Grant(sid, job.window, y.now)])
      else SetJob(y, j, Finished)
    case Deadline(j) => SetJob(y, j, Finished)
    case CallModel(j) =>
      var job := y.jobs[j].1;
      SetJob(y, j, InModel(job.attempt)).(spent := y.spent + {job.grant}, calls := y.calls + 1)
    case Answer(j, accepted) =>
      var attempt := y.jobs[j].1.attempt;
      SetJob(y, j, if accepted || attempt >= 1 then Finished else Between(attempt + 1))
    case Retry(j) => SetJob(y, j, Asking(y.jobs[j].1.attempt, y.now / WINDOW))
  }

  predicate Initial(y: System)
  {
    y.counters == map[] && y.jobs == map[] && y.grants == [] && y.spent == {} && y.calls == 0
  }

  predicate Steps(y: System, a: Action, y': System)
  {
    Enabled(y, a) && y' == Next(y, a)
  }

  predicate Run(run: seq<System>, actions: seq<Action>)
  {
    && |run| == |actions| + 1 && Initial(run[0])
    && forall t | 0 < t < |run| :: Steps(run[t - 1], actions[t - 1], run[t])
  }

  // ---- Counters and the grants behind them ---------------------------------------------

  predicate Counts(g: Grant, k: Key)
  {
    g.window == k.window && (k.scope == Global || k.scope == OfSession(g.sid))
  }

  /** When the grants under key `k` were made, oldest first. */
  function Times(grants: seq<Grant>, k: Key): seq<nat>
    decreases |grants|
  {
    if grants == [] then []
    else
      var before := Times(grants[..|grants| - 1], k);
      var g := grants[|grants| - 1];
      if Counts(g, k) then before + [g.time] else before
  }

  /** How many of the latest times follow one another, and `now`, within the expiry. */
  function Recent(times: seq<nat>, now: int): nat
    decreases |times|
  {
    if times == [] || now >= times[|times| - 1] + EXPIRY then 0
    else 1 + Recent(times[..|times| - 1], times[|times| - 1])
  }

  /** No two neighbours, `now` included, lie an expiry or more apart. */
  predicate NoGap(times: seq<nat>, now: int)
    decreases |times|
  {
    times == [] ||
    (now < times[|times| - 1] + EXPIRY && NoGap(times[..|times| - 1], times[|times| - 1]))
  }

  lemma {:induction false} RecentIsAllIffNoGap(times: seq<nat>, now: int)
    ensures Recent(times, now) <= |times|
    ensures Recent(times, now) == |times| <==> NoGap(times, now)
    decreases |times|
  {
    if times != [] { RecentIsAllIffNoGap(times[..|times| - 1], times[|times| - 1]); }
  }

  ghost predicate CounterOk(y: System, k: Key)
  {
    var times := Times(y.grants, k);
    && (k in y.counters <==> times != [])
    && (times != [] ==>
          var last := times[|times| - 1];
          y.counters[k] == Counter(1 + Recent(times[..|times| - 1], last), last + EXPIRY))
  }

  ghost predicate CountersOk(y: System)
  {
    forall k: Key :: CounterOk(y, k)
  }

  lemma CounterReads(y: System, k: Key)
    requires CounterOk(y, k)
    ensures Get(y.counters, k, y.now) == Recent(Times(y.grants, k), y.now)
  {
  }

  lemma BumpedAt(counters: Counters, sid: string, window: nat, now: nat, k: Key)
    ensures var bumped := BumpBoth(counters, sid, window, now);
            if Counts(Grant(sid, window, now), k) then
              k in bumped && bumped[k] == Counter(Get(counters, k, now) + 1, now + EXPIRY)
            else (k in bumped <==> k in counters) && (k in counters ==> bumped[k] == counters[k])
  {
  }

  lemma TimesMore(grants: seq<Grant>, g: Grant, k: Key)
    ensures Times(grants + [g], k) == if Counts(g, k) then Times(grants, k) + [g.time] else Times(grants, k)
  {
    assert (grants + [g])[..|grants|] == grants;
  }

  lemma EvalKeepsCounter(y: System, j: JobId, k: Key)
    requires Enabled(y, Eval(j)) && CounterOk(y, k)
    ensures CounterOk(Next(y, Eval(j)), k)
  {
    hide Times, BumpBoth, Recent, Allows, Counts;
    var (sid, job) := y.jobs[j];
    var times := Times(y.grants, k);
    CounterReads(y, k);
    BumpedAt(y.counters, sid, job.window, y.now, k);
    TimesMore(y.grants, Grant(sid, job.window, y.now), k);
    assert (times + [y.now])[..|times|] == times;
  }

  lemma StepKeepsCounters(y: System, a: Action)
    requires Enabled(y, a) && CountersOk(y)
    ensures CountersOk(Next(y, a))
  {
    hide CounterOk, Allows, BumpBoth;
    var y' := Next(y, a);
    forall k: Key ensures CounterOk(y', k) {
      if a.Eval? { EvalKeepsCounter(y, a.job, k); } else { SameCounter(y, y', k); }
    }
  }

  lemma SameCounter(y: System, y': System, k: Key)
    requires CounterOk(y, k) && y'.counters == y.counters && y'.grants == y.grants
    ensures CounterOk(y', k)
  {
  }

  /** In every run a counter reads as the number of its grants since the last pause of an
      expiry or more, and as the number of all of them exactly if there was no such pause. */
  lemma {:induction false} CountersCountGrants(run: seq<System>, actions: seq<Action>, t: nat, k: Key)
    requires Run(run, actions) && t < |run|
    ensures var y := run[t];
            && Get(y.counters, k, y.now) == Recent(Times(y.grants, k), y.now)
            && (Get(y.counters, k, y.now) == |Times(y.grants, k)| <==> NoGap(Times(y.grants, k), y.now))
  {
    hide Next, Steps;
    RunKeepsCounters(run, actions, t);
    CounterReads(run[t], k);
    RecentIsAllIffNoGap(Times(run[t].grants, k), run[t].now);
  }

  lemma {:induction false} RunKeepsCounters(run: seq<System>, actions: seq<Action>, t: nat)
    requires Run(run, actions) && t < |run|
    ensures CountersOk(run[t])
    decreases t
  {
    hide Next, Enabled;
    if t > 0 {
      RunKeepsCounters(run, actions, t - 1);
      assert Steps(run[t - 1], actions[t - 1], run[t]);
      StepKeepsCounters(run[t - 1], actions[t - 1]);
    }
  }

  // ---- Limits ---------------------------------------------------------------------------

  function LimitOf(y: System, k: Key): nat
  {
    if k.scope == Global then GLOBAL_LIMIT else y.limit
  }

  /** Grants under `k` beyond the limit are possible only after a pause of an expiry. */
  ghost predicate WithinLimit(y: System, k: Key)
  {
    var times := Times(y.grants, k);
    times != [] ==>
      NoGap(times[..|times| - 1], times[|times| - 1]) ==> |times| <= LimitOf(y, k)
  }

  lemma EvalKeepsLimit(y: System, j: JobId, k: Key)
    requires Enabled(y, Eval(j)) && CounterOk(y, k) && WithinLimit(y, k)
    ensures WithinLimit(Next(y, Eval(j)), k)
  {
    hide Times, BumpBoth, Recent, NoGap, CounterOk;
    var (sid, job) := y.jobs[j];
    var times := Times(y.grants, k);
    CounterReads(y, k);
    RecentIsAllIffNoGap(times, y.now);
    TimesMore(y.grants, Grant(sid, job.window, y.now), k);
    assert (times + [y.now])[..|times|] == times;
  }

  /** Unless two consecutive grants of a key lie an expiry apart, the key's grants, over
      all time, number at most its limit. */
  lemma {:induction false} GrantsWithinLimit(run: seq<System>, actions: seq<Action>, t: nat, k: Key)
    requires Run(run, actions) && t < |run|
    ensures WithinLimit(run[t], k)
    decreases t
  {
    hide Next, Enabled, NoGap, Times, CounterOk;
    if t > 0 {
      GrantsWithinLimit(run, actions, t - 1, k);
      RunKeepsCounters(run, actions, t - 1);
      assert Steps(run[t - 1], actions[t - 1], run[t]);
      var a := actions[t - 1];
      if a.Eval? { EvalKeepsLimit(run[t - 1], a.job, k); } else { OtherKeepsGrants(run[t - 1], a); }
    } else {
      NoTimes(run[0], k);
    }
  }

  lemma NoTimes(y: System, k: Key)
    requires Initial(y)
    ensures Times(y.grants, k) == []
  {
  }

  lemma OtherKeepsGrants(y: System, a: Action)
    requires Enabled(y, a) && !a.Eval?
    ensures Next(y, a).grants == y.grants && Next(y, a).counters == y.counters && Next(y, a).limit == y.limit
  {
  }

  /** The script of a window arrives before the window's successor is over. */
  predicate Prompt(run: seq<System>, actions: seq<Action>)
    requires |run| == |actions| + 1
  {
    forall t | 0 <= t < |actions| && actions[t].Eval? :: Timely(run[t], actions[t].job)
  }

  predicate Timely(y: System, j: JobId)
  {
    j in y.jobs && (y.jobs[j].1.Asking? ==> y.now < (y.jobs[j].1.window + 2) * WINDOW)
  }

  ghost predicate InTime(y: System)
  {
    && (forall i | 0 <= i < |y.grants| ::
          y.grants[i].window * WINDOW <= y.grants[i].time <= y.now && y.grants[i].time < (y.grants[i].window + 2) * WINDOW)
    && (forall i, k | 0 <= i < k < |y.grants| :: y.grants[i].time <= y.grants[k].time)
    && (forall j <- y.jobs | y.jobs[j].1.Asking? :: y.jobs[j].1.window * WINDOW <= y.now)
  }

  lemma StepKeepsInTime(y: System, a: Action)
    requires Enabled(y, a) && InTime(y) && (a.Eval? ==> Timely(y, a.job))
    ensures InTime(Next(y, a))
  {
    hide Allows, BumpBoth;
    var y' := Next(y, a);
    assert (y.now / WINDOW) * WINDOW <= y.now;
    if y'.grants != y.grants {
      assert forall i | 0 <= i < |y.grants| :: y'.grants[i] == y.grants[i];
    }
  }

  lemma {:induction false} PromptRunsAreInTime(run: seq<System>, actions: seq<Action>, t: nat)
    requires Run(run, actions) && t < |run| && Prompt(run, actions)
    ensures InTime(run[t])
    decreases t
  {
    hide Next, Enabled, Timely;
    if t > 0 {
      PromptRunsAreInTime(run, actions, t - 1);
      assert Steps(run[t - 1], actions[t - 1], run[t]);
      StepKeepsInTime(run[t - 1], actions[t - 1]);
    }
  }

  /** Times of one window span less than an expiry. */
  lemma {:induction false} WindowTimes(grants: seq<Grant>, k: Key, from: nat, now: int)
    requires forall i | 0 <= i < |grants| && grants[i].window == k.window :: from <= grants[i].time
    requires now < from + EXPIRY
    requires forall i | 0 <= i < |grants| && grants[i].window == k.window :: grants[i].time < from + EXPIRY
    ensures NoGap(Times(grants, k), now)
    decreases |grants|
  {
    if grants != [] {
      var front := grants[..|grants| - 1];
      var g := grants[|grants| - 1];
      assert forall i | 0 <= i < |front| :: front[i] == grants[i];
      if Counts(g, k) {
        WindowTimes(front, k, from, g.time);
        assert (Times(front, k) + [g.time])[..|Times(front, k)|] == Times(front, k);
      } else {
        WindowTimes(front, k, from, now);
      }
    }
  }

  lemma {:induction false} LastTime(grants: seq<Grant>, k: Key)
    requires Times(grants, k) != []
    ensures exists i | 0 <= i < |grants| :: Counts(grants[i], k) && grants[i].time == Times(grants, k)[|Times(grants, k)| - 1]
    decreases |grants|
  {
    var front := grants[..|grants| - 1];
    var g := grants[|grants| - 1];
    if Counts(g, k) {
      assert grants[|grants| - 1].time == Times(grants, k)[|Times(grants, k)| - 1];
    } else {
      LastTime(front, k);
      var i :| 0 <= i < |front| && Counts(front[i], k) && front[i].time == Times(front, k)[|Times(front, k)| - 1];
      assert grants[i] == front[i];
    }
  }

  // ---- Conservation ----------------------------------------------------------------------

  /** Grants of window `w` to sessions in `sids`, summed session by session. */
  function PerSession(grants: seq<Grant>, w: nat, sids: seq<string>): nat
  {
    if sids == [] then 0 else |Times(grants, Key(OfSession(sids[0]), w))| + PerSession(grants, w, sids[1..])
  }

  predicate NoRepeats(sids: seq<string>)
  {
    forall i, j | 0 <= i < j < |sids| :: sids[i] != sids[j]
  }

  predicate Covers(grants: seq<Grant>, w: nat, sids: seq<string>)
  {
    forall i | 0 <= i < |grants| && grants[i].window == w :: grants[i].sid in sids
  }

  lemma {:induction false} OneMore(front: seq<Grant>, g: Grant, w: nat, sids: seq<string>)
    requires NoRepeats(sids)
    ensures PerSession(front + [g], w, sids) ==
            PerSession(front, w, sids) + (if g.window == w && g.sid in sids then 1 else 0)
    decreases |sids|
  {
    assert (front + [g])[..|front|] == front;
    if sids != [] {
      OneMore(front, g, w, sids[1..]);
      assert sids == [sids[0]] + sids[1..];
      if g.sid == sids[0] {
        assert g.sid !in sids[1..];
      }
    }
  }

  lemma {:induction false} NoGrantsNoSum(w: nat, sids: seq<string>)
    ensures PerSession([], w, sids) == 0
    decreases |sids|
  {
    if sids != [] { NoGrantsNoSum(w, sids[1..]); }
  }

  lemma {:induction false} GlobalIsSum(grants: seq<Grant>, w: nat, sids: seq<string>)
    requires NoRepeats(sids) && Covers(grants, w, sids)
    ensures |Times(grants, Key(Global, w))| == PerSession(grants, w, sids)
    decreases |grants|
  {
    if grants == [] {
      NoGrantsNoSum(w, sids);
    } else {
      var front := grants[..|grants| - 1];
      var g := grants[|grants| - 1];
      assert grants == front + [g];
      assert forall i | 0 <= i < |front| :: front[i] == grants[i];
      GlobalIsSum(front, w, sids);
      OneMore(front, g, w, sids);
    }
  }

  function CounterSum(y: System, w: nat, sids: seq<string>): nat
  {
    if sids == [] then 0
    else Get(y.counters, Key(OfSession(sids[0]), w), y.now) + CounterSum(y, w, sids[1..])
  }

  lemma {:induction false} ExactCountersSum(y: System, w: nat, sids: seq<string>)
    requires forall sid :: Get(y.counters, Key(OfSession(sid), w), y.now) == |Times(y.grants, Key(OfSession(sid), w))|
    ensures CounterSum(y, w, sids) == PerSession(y.grants, w, sids)
    decreases |sids|
  {
    if sids != [] { ExactCountersSum(y, w, sids[1..]); }
  }

  /** If scripts arrive on time then, until a window's successor is over, its counters
      count its grants and the global counter is the sum over the sessions. */
  lemma QuotaIsConserved(run: seq<System>, actions: seq<Action>, t: nat, w: nat, sids: seq<string>)
    requires Run(run, actions) && t < |run| && Prompt(run, actions)
    requires run[t].now < (w + 2) * WINDOW
    requires NoRepeats(sids) && Covers(run[t].grants, w, sids)
    ensures var y := run[t];
            && Get(y.counters, Key(Global, w), y.now) == |Times(y.grants, Key(Global, w))| == CounterSum(y, w, sids)
            && forall sid :: Get(y.counters, Key(OfSession(sid), w), y.now) == |Times(y.grants, Key(OfSession(sid), w))|
  {
    hide Run, Prompt, Times, Get, NoGap, Recent;
    var y := run[t];
    PromptRunsAreInTime(run, actions, t);
    forall k: Key | k.window == w ensures Get(y.counters, k, y.now) == |Times(y.grants, k)| {
      WindowTimes(y.grants, k, w * WINDOW, y.now);
      CountersCountGrants(run, actions, t, k);
    }
    ExactCountersSum(y, w, sids);
    GlobalIsSum(y.grants, w, sids);
  }

  /** On time, no window ever sees more than sixty grants, nor a session more than its
      limit, however long the run. */
  lemma QuotaBounds(run: seq<System>, actions: seq<Action>, t: nat, w: nat, sid: string)
    requires Run(run, actions) && t < |run| && Prompt(run, actions)
    ensures |Times(run[t].grants, Key(Global, w))| <= GLOBAL_LIMIT
    ensures |Times(run[t].grants, Key(OfSession(sid), w))| <= run[t].limit
  {
    hide Run, Prompt;
    PromptRunsAreInTime(run, actions, t);
    KeyBound(run, actions, t, Key(Global, w));
    KeyBound(run, actions, t, Key(OfSession(sid), w));
  }

  lemma KeyBound(run: seq<System>, actions: seq<Action>, t: nat, k: Key)
    requires Run(run, actions) && t < |run| && InTime(run[t])
    ensures |Times(run[t].grants, k)| <= LimitOf(run[t], k)
  {
    hide Run;
    var y := run[t];
    var times := Times(y.grants, k);
    GrantsWithinLimit(run, actions, t, k);
    if times != [] {
      LastTime(y.grants, k);
      var last := times[|times| - 1];
      WindowTimes(y.grants, k, k.window * WINDOW, last);
    }
  }

  /** A script delayed past the expiry finds the counter gone: with a limit of one, the
      session gets a second grant in the same window. */
  lemma LateScriptBreaksTheLimit() returns (run: seq<System>, actions: seq<Action>)
    ensures Run(run, actions) && run[|run| - 1].limit == 1
    ensures |Times(run[|run| - 1].grants, Key(OfSession("s"), 0))| == 2
  {
    var y0 := System(0, 1, map[], map[], [], {}, 0);
    var y1 := Next(y0, Start(1, "s"));
    var y2 := Next(y1, Start(2, "s"));
    var y3 := Next(y2, Eval(1));
    var y4 := Next(y3, Tick(EXPIRY));
    var y5 := Next(y4, Eval(2));
    run, actions := [y0, y1, y2, y3, y4, y5], [Start(1, "s"), Start(2, "s"), Eval(1), Tick(EXPIRY), Eval(2)];
    assert y3.grants == [Grant("s", 0, 0)];
    assert y5.grants == [Grant("s", 0, 0), Grant("s", 0, EXPIRY)];
    assert y5.grants[..1] == y3.grants;
    assert Times(y3.grants[..0], Key(OfSession("s"), 0)) == [];
  }

  // ---- Model calls -------------------------------------------------------------------------

  /** Job `j` holds grant `i`, still to be spent. */
  predicate Holds(y: System, j: JobId, i: nat)
  {
    j in y.jobs && y.jobs[j].1.Holding? && y.jobs[j].1.grant == i
  }

  ghost predicate SpendingOk(y: System)
  {
    && y.calls == |y.spent|
    && (forall i <- y.spent :: i < |y.grants|)
    && (forall j, i: nat | Holds(y, j, i) :: i < |y.grants| && i !in y.spent && y.grants[i].sid == y.jobs[j].0)
    && (forall j, j', i: nat | Holds(y, j, i) && Holds(y, j', i) :: j == j')
  }

  lemma EvalKeepsSpending(y: System, j: JobId)
    requires Enabled(y, Eval(j)) && SpendingOk(y)
    ensures SpendingOk(Next(y, Eval(j)))
  {
    hide Allows, BumpBoth;
    var y' := Next(y, Eval(j));
    assert forall k, i: nat | k != j :: Holds(y', k, i) <==> Holds(y, k, i);
    assert forall i: nat :: Holds(y', j, i) ==> i == |y.grants|;
  }

  lemma CallKeepsSpending(y: System, j: JobId)
    requires Enabled(y, CallModel(j)) && SpendingOk(y)
    ensures SpendingOk(Next(y, CallModel(j)))
  {
    var y' := Next(y, CallModel(j));
    assert Holds(y, j, y.jobs[j].1.grant);
    assert forall k, i: nat :: Holds(y', k, i) <==> k != j && Holds(y, k, i);
  }

  lemma OtherKeepsSpending(y: System, a: Action)
    requires Enabled(y, a) && SpendingOk(y) && !a.Eval? && !a.CallModel?
    ensures SpendingOk(Next(y, a))
  {
    var y' := Next(y, a);
    assert forall k, i: nat | Holds(y', k, i) :: Holds(y, k, i) && y'.jobs[k].0 == y.jobs[k].0;
  }

  lemma StepKeepsSpending(y: System, a: Action)
    requires Enabled(y, a) && SpendingOk(y)
    ensures SpendingOk(Next(y, a))
  {
    hide SpendingOk, Next, Enabled;
    match a
    case Eval(j) => EvalKeepsSpending(y, j);
    case CallModel(j) => CallKeepsSpending(y, j);
    case _ => OtherKeepsSpending(y, a);
  }

  lemma {:induction false} RunKeepsSpending(run: seq<System>, actions: seq<Action>, t: nat)
    requires Run(run, actions) && t < |run|
    ensures SpendingOk(run[t])
    decreases t
  {
    hide Next, Enabled;
    if t > 0 {
      RunKeepsSpending(run, actions, t - 1);
      assert Steps(run[t - 1], actions[t - 1], run[t]);
      StepKeepsSpending(run[t - 1], actions[t - 1]);
    }
  }

  /** The model calls made on grants of key `k`. */
  function CallsUnder(y: System, k: Key): set<nat>
  {
    set i | i in y.spent && i < |y.grants| && Counts(y.grants[i], k)
  }

  lemma {:induction false} IndicesBound(grants: seq<Grant>, k: Key, indices: set<nat>)
    requires forall i <- indices :: i < |grants| && Counts(grants[i], k)
    ensures |indices| <= |Times(grants, k)|
    decreases |grants|
  {
    if grants == [] {
      assert indices == {};
    } else {
      var last := |grants| - 1;
      var front := grants[..last];
      var rest := indices - {last};
      forall i <- rest ensures i < |front| && Counts(front[i], k) {}
      IndicesBound(front, k, rest);
      if last in indices { assert indices == rest + {last}; } else { assert indices == rest; }
    }
  }

  /** Every model call, retries included, is paid for by a grant of its own, window by
      window and session by session. */
  lemma CallsWithinGrants(run: seq<System>, actions: seq<Action>, t: nat, k: Key)
    requires Run(run, actions) && t < |run|
    ensures run[t].calls <= |run[t].grants|
    ensures |CallsUnder(run[t], k)| <= |Times(run[t].grants, k)|
    ensures forall i <- run[t].spent :: i < |run[t].grants|
  {
    hide Run, Times;
    var y := run[t];
    RunKeepsSpending(run, actions, t);
    IndicesBound(y.grants, k, CallsUnder(y, k));
    SmallSet(y.spent, |y.grants|);
  }

  lemma {:induction false} SmallSet(s: set<nat>, n: nat)
    requires forall i <- s :: i < n
    ensures |s| <= n
    decreases n
  {
    if n == 0 {
      assert s == {};
    } else {
      SmallSet(s - {n - 1}, n - 1);
      if n - 1 in s { assert s == (s - {n - 1}) + {n - 1}; } else { assert s == s - {n - 1}; }
    }
  }
}
