/** Exactly when the quota counters add up, and exactly when grants exceed a limit, in
    every run, however late its scripts arrive. */
module QuotaLaws {
  import opened Quota

  // ---- What counters never do --------------------------------------------------------------

  ghost predicate Capped(y: System)
  {
    forall k <- y.counters :: y.counters[k].value <= LimitOf(y, k)
  }

  lemma BumpBothCaps(y: System, sid: string, window: nat)
    requires Capped(y) && Allows(y.counters, sid, window, y.limit, y.now)
    ensures var bumped := BumpBoth(y.counters, sid, window, y.now);
            forall k <- bumped :: bumped[k].value <= LimitOf(y, k)
  {
  }

  lemma StepKeepsCapped(y: System, a: Action)
    requires Enabled(y, a) && Capped(y)
    ensures Capped(Next(y, a))
  {
    hide Allows, BumpBoth;
    if a.Eval? {
      var (sid, job) := y.jobs[a.job];
      if Allows(y.counters, sid, job.window, y.limit, y.now) { BumpBothCaps(y, sid, job.window); }
    } else {
      OtherKeepsGrants(y, a);
    }
  }

  lemma {:induction false} RunKeepsCapped(run: seq<System>, actions: seq<Action>, t: nat)
    requires Run(run, actions) && t < |run|
    ensures Capped(run[t])
    decreases t
  {
    hide Next, Enabled;
    if t > 0 {
      RunKeepsCapped(run, actions, t - 1);
      assert Steps(run[t - 1], actions[t - 1], run[t]);
      StepKeepsCapped(run[t - 1], actions[t - 1]);
    }
  }

  /** In every run, with no assumption on timing, no counter ever reads above its limit. */
  lemma CountersWithinLimit(run: seq<System>, actions: seq<Action>, t: nat, k: Key)
    requires Run(run, actions) && t < |run|
    ensures Get(run[t].counters, k, run[t].now) <= LimitOf(run[t], k)
  {
    hide Run;
    RunKeepsCapped(run, actions, t);
  }

  // ---- When grants exceed a limit -------------------------------------------------------------

  /** The next script of job `j` counts under `k`, the key's grants already fill its limit,
      and yet both counters have restarted so recently that the script says yes. */
  predicate Overruns(y: System, j: JobId, k: Key)
  {
    j in y.jobs && y.jobs[j].1.Asking? &&
    var (sid, job) := y.jobs[j];
    && Counts(Grant(sid, job.window, y.now), k)
    && |Times(y.grants, k)| >= LimitOf(y, k)
    && Recent(Times(y.grants, Key(OfSession(sid), job.window)), y.now) < y.limit
    && Recent(Times(y.grants, Key(Global, job.window)), y.now) < GLOBAL_LIMIT
  }

  predicate PastLimit(y: System, k: Key) { |Times(y.grants, k)| > LimitOf(y, k) }

  /** A grant under the key is made, and the key's grants exceed its limit afterwards. */
  predicate GrantsPast(y: System, j: JobId, k: Key)
    requires Enabled(y, Eval(j))
  {
    Times(Next(y, Eval(j)).grants, k) != Times(y.grants, k) && PastLimit(Next(y, Eval(j)), k)
  }

  lemma EvalOverruns(y: System, j: JobId, k: Key)
    requires Enabled(y, Eval(j)) && CountersOk(y)
    ensures GrantsPast(y, j, k) <==> Overruns(y, j, k)
    ensures Overruns(y, j, k) ==> !NoGap(Times(y.grants, k), y.now)
  {
    hide Times, BumpBoth, Recent, NoGap, CounterOk;
    var (sid, job) := y.jobs[j];
    CounterReads(y, Key(OfSession(sid), job.window));
    CounterReads(y, Key(Global, job.window));
    TimesMore(y.grants, Grant(sid, job.window, y.now), k);
    RecentIsAllIffNoGap(Times(y.grants, k), y.now);
  }

  /** In every run, a script takes a key past its limit exactly when the key's grants fill
      the limit already and both restarted counters still have room; that needs a pause of
      an expiry among those grants or since. */
  lemma OverrunExactlyWhen(run: seq<System>, actions: seq<Action>, t: nat, j: JobId, k: Key)
    requires Run(run, actions) && t < |run| && Enabled(run[t], Eval(j))
    ensures GrantsPast(run[t], j, k) <==> Overruns(run[t], j, k)
    ensures Overruns(run[t], j, k) ==> !NoGap(Times(run[t].grants, k), run[t].now)
  {
    hide Run, GrantsPast, Overruns, CountersOk, Enabled;
    RunKeepsCounters(run, actions, t);
    EvalOverruns(run[t], j, k);
  }

  ghost predicate OverrunIn(run: seq<System>, actions: seq<Action>, k: Key, u: nat)
    requires |run| == |actions| + 1 && u <= |actions|
  {
    exists t | 0 <= t < u :: actions[t].Eval? && Overruns(run[t], actions[t].job, k)
  }

  lemma StepPastLimit(y: System, a: Action, k: Key)
    requires Enabled(y, a) && CountersOk(y)
    ensures PastLimit(Next(y, a), k) <==> PastLimit(y, k) || (a.Eval? && Overruns(y, a.job, k))
  {
    hide CountersOk, Overruns, Times, BumpBoth, Allows;
    if a.Eval? {
      EvalOverruns(y, a.job, k);
      var (sid, job) := y.jobs[a.job];
      TimesMore(y.grants, Grant(sid, job.window, y.now), k);
    } else {
      OtherKeepsGrants(y, a);
    }
  }

  /** A key's grants exceed its limit by moment `u` of a run exactly if one of the scripts
      before was such an overrun: on time or late, no other script does harm. */
  lemma {:induction false} LimitBrokenExactlyWhen(run: seq<System>, actions: seq<Action>, u: nat, k: Key)
    requires Run(run, actions) && u < |run|
    ensures PastLimit(run[u], k) <==> OverrunIn(run, actions, k, u)
    decreases u
  {
    hide Next, Enabled, Overruns, CountersOk, PastLimit;
    if u == 0 {
      NotPastAtFirst(run[0], k);
    } else {
      LimitBrokenExactlyWhen(run, actions, u - 1, k);
      RunKeepsCounters(run, actions, u - 1);
      assert Steps(run[u - 1], actions[u - 1], run[u]);
      StepPastLimit(run[u - 1], actions[u - 1], k);
    }
  }

  lemma NotPastAtFirst(y: System, k: Key)
    requires Initial(y)
    ensures !PastLimit(y, k)
  {
    NoTimes(y, k);
  }

  // ---- When the counters add up ------------------------------------------------------------------

  ghost predicate InOrder(y: System)
  {
    && (forall i | 0 <= i < |y.grants| :: y.grants[i].time <= y.now)
    && (forall i, j | 0 <= i < j < |y.grants| :: y.grants[i].time <= y.grants[j].time)
  }

  lemma StepKeepsOrder(y: System, a: Action)
    requires Enabled(y, a) && InOrder(y)
    ensures InOrder(Next(y, a))
  {
    hide Allows, BumpBoth;
    if !a.Eval? { OtherKeepsGrants(y, a); }
  }

  lemma {:induction false} RunKeepsOrder(run: seq<System>, actions: seq<Action>, t: nat)
    requires Run(run, actions) && t < |run|
    ensures InOrder(run[t])
    decreases t
  {
    hide Next, Enabled;
    if t > 0 {
      RunKeepsOrder(run, actions, t - 1);
      assert Steps(run[t - 1], actions[t - 1], run[t]);
      StepKeepsOrder(run[t - 1], actions[t - 1]);
    }
  }

  predicate Sorted(grants: seq<Grant>) { forall i, j | 0 <= i < j < |grants| :: grants[i].time <= grants[j].time }

  /** The grants of window `w` since its global counter last started from zero. */
  function Burst(grants: seq<Grant>, w: nat, now: int): seq<Grant>
    decreases |grants|
  {
    if grants == [] then []
    else
      var front, g := grants[..|grants| - 1], grants[|grants| - 1];
      if g.window != w then Burst(front, w, now)
      else if now >= g.time + EXPIRY then []
      else Burst(front, w, g.time) + [g]
  }

  lemma {:induction false} BurstIsGlobal(grants: seq<Grant>, w: nat, now: int)
    ensures |Burst(grants, w, now)| == Recent(Times(grants, Key(Global, w)), now)
    ensures forall i | 0 <= i < |Burst(grants, w, now)| ::
              Burst(grants, w, now)[i] in grants && Burst(grants, w, now)[i].window == w
    decreases |grants|
  {
    hide Recent;
    var k := Key(Global, w);
    if grants == [] {
      RecentNone(now);
    } else {
      var front, g := grants[..|grants| - 1], grants[|grants| - 1];
      assert grants == front + [g];
      TimesMore(front, g, k);
      RecentMore(Times(front, k), g.time, now);
      BurstIsGlobal(front, w, now);
      BurstIsGlobal(front, w, g.time);
      assert forall x <- front :: x in grants;
    }
  }

  lemma RecentNone(now: int)
    ensures Recent([], now) == 0
  {
  }

  lemma RecentMore(times: seq<nat>, t: nat, now: int)
    ensures Recent(times + [t], now) == if now >= t + EXPIRY then 0 else 1 + Recent(times, t)
  {
    assert (times + [t])[..|times|] == times;
  }

  lemma {:induction false} OldTimes(grants: seq<Grant>, k: Key, latest: nat, now: int)
    requires (forall i | 0 <= i < |grants| :: grants[i].time <= latest) && now >= latest + EXPIRY
    ensures Recent(Times(grants, k), now) == 0
    decreases |grants|
  {
    if grants != [] {
      var front, g := grants[..|grants| - 1], grants[|grants| - 1];
      assert grants == front + [g] && forall i | 0 <= i < |front| :: front[i] == grants[i];
      TimesMore(front, g, k);
      if Counts(g, k) { RecentMore(Times(front, k), g.time, now); } else { OldTimes(front, k, latest, now); }
    }
  }

  /** A session's live grants all lie in the global burst: where the global counter paused,
      the session's did too. */
  lemma {:induction false} BurstIsSession(grants: seq<Grant>, w: nat, sid: string, now: int, later: int)
    requires Sorted(grants) && now <= later && forall i | 0 <= i < |grants| :: grants[i].time <= now
    ensures var k := Key(OfSession(sid), w);
            Recent(Times(grants, k), later) == Recent(Times(Burst(grants, w, now), k), later)
    decreases |grants|
  {
    hide Recent, Times;
    var k := Key(OfSession(sid), w);
    if grants != [] {
      var front, g := grants[..|grants| - 1], grants[|grants| - 1];
      assert grants == front + [g];
      forall i | 0 <= i < |front| ensures front[i].time <= g.time { assert front[i] == grants[i]; }
      assert Sorted(front);
      TimesMore(front, g, k);
      if g.window != w {
        BurstIsSession(front, w, sid, now, later);
      } else if now >= g.time + EXPIRY {
        OldTimes(grants, k, g.time, later);
        NoTimesAtAll(k);
        RecentNone(later);
      } else {
        var burst := Burst(front, w, g.time);
        TimesMore(burst, g, k);
        if g.sid == sid {
          BurstIsSession(front, w, sid, g.time, g.time);
          RecentMore(Times(front, k), g.time, later);
          RecentMore(Times(burst, k), g.time, later);
        } else {
          BurstIsSession(front, w, sid, g.time, later);
        }
      }
    }
  }

  lemma NoTimesAtAll(k: Key)
    ensures Times([], k) == []
  {
  }

  /** No session among `sids` has paused for an expiry since the burst began. */
  predicate NonePaused(burst: seq<Grant>, w: nat, sids: seq<string>, now: int)
  {
    forall i | 0 <= i < |sids| :: NoGap(Times(burst, Key(OfSession(sids[i]), w)), now)
  }

  function RecentSum(burst: seq<Grant>, w: nat, sids: seq<string>, now: int): nat
  {
    if sids == [] then 0
    else Recent(Times(burst, Key(OfSession(sids[0]), w)), now) + RecentSum(burst, w, sids[1..], now)
  }

  lemma {:induction false} SumBelow(burst: seq<Grant>, w: nat, sids: seq<string>, now: int)
    ensures RecentSum(burst, w, sids, now) <= PerSession(burst, w, sids)
    ensures RecentSum(burst, w, sids, now) == PerSession(burst, w, sids) <==> NonePaused(burst, w, sids, now)
    decreases |sids|
  {
    hide Recent, NoGap, Times;
    if sids != [] {
      SumBelow(burst, w, sids[1..], now);
      RecentIsAllIffNoGap(Times(burst, Key(OfSession(sids[0]), w)), now);
      assert NonePaused(burst, w, sids, now) <==>
        NoGap(Times(burst, Key(OfSession(sids[0]), w)), now) && NonePaused(burst, w, sids[1..], now) by {
        assert sids == [sids[0]] + sids[1..];
        assert forall i | 0 < i < |sids| :: sids[i] == sids[1..][i - 1];
        if NonePaused(burst, w, sids, now) {
          forall i | 0 <= i < |sids[1..]| ensures NoGap(Times(burst, Key(OfSession(sids[1..][i]), w)), now) {
            assert sids[1..][i] == sids[i + 1];
          }
        }
      }
    }
  }

  lemma {:induction false} CountersAreRecent(y: System, w: nat, sids: seq<string>)
    requires CountersOk(y) && InOrder(y)
    ensures CounterSum(y, w, sids) == RecentSum(Burst(y.grants, w, y.now), w, sids, y.now)
    decreases |sids|
  {
    hide CounterOk, Recent, Times, Burst, Get;
    if sids != [] {
      CounterReads(y, Key(OfSession(sids[0]), w));
      BurstIsSession(y.grants, w, sids[0], y.now, y.now);
      CountersAreRecent(y, w, sids[1..]);
    }
  }

  lemma AllGlobal(burst: seq<Grant>, w: nat)
    requires forall i | 0 <= i < |burst| :: burst[i].window == w
    ensures |Times(burst, Key(Global, w))| == |burst|
    decreases |burst|
  {
    if burst != [] { AllGlobal(burst[..|burst| - 1], w); }
  }

  /** In every run and at every moment the session counters of a window sum to at most the
      global counter, and to exactly it if and only if no session has paused for an expiry
      since the global counter last started from zero. */
  lemma SumExactlyWhen(run: seq<System>, actions: seq<Action>, t: nat, w: nat, sids: seq<string>)
    requires Run(run, actions) && t < |run| && NoRepeats(sids) && Covers(run[t].grants, w, sids)
    ensures var y := run[t];
            var global := Get(y.counters, Key(Global, w), y.now);
            && CounterSum(y, w, sids) <= global
            && (CounterSum(y, w, sids) == global <==> NonePaused(Burst(y.grants, w, y.now), w, sids, y.now))
  {
    hide Run, CounterOk, Recent, Times, NoGap, Burst, Get, NonePaused;
    var y := run[t];
    var burst := Burst(y.grants, w, y.now);
    RunKeepsCounters(run, actions, t);
    RunKeepsOrder(run, actions, t);
    CounterReads(y, Key(Global, w));
    BurstIsGlobal(y.grants, w, y.now);
    CountersAreRecent(y, w, sids);
    AllGlobal(burst, w);
    GlobalIsSum(burst, w, sids);
    SumBelow(burst, w, sids, y.now);
  }

  // ---- On time -------------------------------------------------------------------------------------

  /** The key has grants, the latest less than an expiry old. */
  predicate Live(y: System, k: Key)
  {
    var times := Times(y.grants, k);
    times != [] && y.now < times[|times| - 1] + EXPIRY
  }

  /** The key has grants, the latest an expiry old or more. */
  predicate Lapsed(y: System, k: Key) { Times(y.grants, k) != [] && !Live(y, k) }

  lemma GapOnlyAtEnd(y: System, k: Key)
    requires InTime(y)
    ensures NoGap(Times(y.grants, k), y.now) <==> !Lapsed(y, k)
  {
    var times := Times(y.grants, k);
    if times != [] {
      LastTime(y.grants, k);
      PastHasNoGap(y, k);
    }
  }

  /** Between two grants of one window no expiry passes, if scripts are on time. */
  lemma PastHasNoGap(y: System, k: Key)
    requires InTime(y) && Times(y.grants, k) != []
    ensures var times := Times(y.grants, k); NoGap(times[..|times| - 1], times[|times| - 1])
  {
    var times := Times(y.grants, k);
    LastTime(y.grants, k);
    WindowTimes(y.grants, k, k.window * WINDOW, times[|times| - 1]);
  }

  lemma {:induction false} BurstIsAll(grants: seq<Grant>, w: nat, sid: string, now: int)
    requires NoGap(Times(grants, Key(Global, w)), now)
    ensures Times(Burst(grants, w, now), Key(OfSession(sid), w)) == Times(grants, Key(OfSession(sid), w))
    decreases |grants|
  {
    hide Times, NoGap;
    if grants != [] {
      var front, g := grants[..|grants| - 1], grants[|grants| - 1];
      assert grants == front + [g];
      TimesMore(front, g, Key(Global, w));
      TimesMore(front, g, Key(OfSession(sid), w));
      if g.window == w {
        NoGapMore(Times(front, Key(Global, w)), g.time, now);
        BurstIsAll(front, w, sid, g.time);
        TimesMore(Burst(front, w, g.time), g, Key(OfSession(sid), w));
      } else {
        BurstIsAll(front, w, sid, now);
      }
    }
  }

  lemma NoGapMore(times: seq<nat>, t: nat, now: int)
    ensures NoGap(times + [t], now) <==> now < t + EXPIRY && NoGap(times, t)
  {
    assert (times + [t])[..|times|] == times;
  }

  /** When scripts arrive on time, the sum is exact at any later moment if and only if the
      window's last grant has expired, or no session's last grant in it has. */
  lemma OnTimeSumExactlyWhen(run: seq<System>, actions: seq<Action>, t: nat, w: nat, sids: seq<string>)
    requires Run(run, actions) && t < |run| && Prompt(run, actions)
    requires NoRepeats(sids) && Covers(run[t].grants, w, sids)
    ensures var y := run[t];
            Get(y.counters, Key(Global, w), y.now) == CounterSum(y, w, sids) <==>
            !Live(y, Key(Global, w)) || forall sid <- sids :: !Lapsed(y, Key(OfSession(sid), w))
  {
    hide Run, Prompt, Times, NoGap, Burst, Live, Get, CounterSum, Covers, NoRepeats, InTime;
    var y := run[t];
    PromptRunsAreInTime(run, actions, t);
    SumExactlyWhen(run, actions, t, w, sids);
    OnTimePauses(y, w, sids);
  }

  lemma OnTimePauses(y: System, w: nat, sids: seq<string>)
    requires InTime(y)
    ensures NonePaused(Burst(y.grants, w, y.now), w, sids, y.now) <==>
            !Live(y, Key(Global, w)) || forall sid <- sids :: !Lapsed(y, Key(OfSession(sid), w))
  {
    hide Times, NoGap, Burst, Live, InTime;
    GapOnlyAtEnd(y, Key(Global, w));
    forall i | 0 <= i < |sids|
      ensures NoGap(Times(Burst(y.grants, w, y.now), Key(OfSession(sids[i]), w)), y.now) <==>
              !Live(y, Key(Global, w)) || !Lapsed(y, Key(OfSession(sids[i]), w))
    {
      var k := Key(OfSession(sids[i]), w);
      GapOnlyAtEnd(y, k);
      if Live(y, Key(Global, w)) {
        BurstIsAll(y.grants, w, sids[i], y.now);
      } else {
        NotLiveIsEmpty(y, w);
        NoTimesAtAll(k);
        NoGapNone(y.now);
      }
    }
    assert forall sid <- sids :: exists i | 0 <= i < |sids| :: sids[i] == sid;
  }

  lemma NotLiveIsEmpty(y: System, w: nat)
    requires !Live(y, Key(Global, w))
    ensures Burst(y.grants, w, y.now) == []
  {
    BurstIsGlobal(y.grants, w, y.now);
  }

  lemma NoGapNone(now: int)
    ensures NoGap([], now)
  {
  }

  /** On-time scripts do not save the sum: "a" is granted at the start of window 0 and "b"
      59 seconds later; at 121 seconds a's counter is gone and the global one still reads 2. */
  lemma SumFailsOnTime() returns (run: seq<System>, actions: seq<Action>)
    ensures Run(run, actions) && Prompt(run, actions)
    ensures var y := run[|run| - 1];
            && NoRepeats(["a", "b"]) && Covers(y.grants, 0, ["a", "b"])
            && Get(y.counters, Key(Global, 0), y.now) == 2 && CounterSum(y, 0, ["a", "b"]) == 1
  {
    var y0 := System(0, 20, map[], map[], [], {}, 0);
    var y1 := Next(y0, Start(1, "a"));
    var y2 := Next(y1, Eval(1));
    var y3 := Next(y2, Tick(59000));
    var y4 := Next(y3, Start(2, "b"));
    var y5 := Next(y4, Eval(2));
    var y6 := Next(y5, Tick(121000));
    run := [y0, y1, y2, y3, y4, y5, y6];
    actions := [Start(1, "a"), Eval(1), Tick(59000), Start(2, "b"), Eval(2), Tick(121000)];
    assert y2.grants == [Grant("a", 0, 0)] && y6.grants == [Grant("a", 0, 0), Grant("b", 0, 59000)];
    assert ["a", "b"][1..] == ["b"] && ["b"][1..] == [];
    assert "a" != "b" by { assert "a"[0] != "b"[0]; }
    assert y6.counters[Key(OfSession("a"), 0)] == Counter(1, 120000);
    assert y6.counters[Key(OfSession("b"), 0)] == Counter(1, 179000);
    assert y6.counters[Key(Global, 0)] == Counter(2, 179000);
    assert CounterSum(y6, 0, ["b"]) == 1 + CounterSum(y6, 0, []);
  }
}
