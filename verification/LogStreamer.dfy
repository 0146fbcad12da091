/** The poller's loop and the collector it calls, as they run: each database transaction
    may go wrong, and audit delivery goes on in between. */
module LogStreamer {
  import opened AuditSpool
  import opened EvidenceFold
  import opened AuditPipeline
  import opened AuditDelivery
  import opened EvidenceExactlyOnce

  /** What the environment does to the n-th event of a poll: how its transactions end, and
      what participants and the delivery worker do before each of them. */
  datatype Weather = Weather(
    load: nat -> bool,
    save: nat -> Outcome,
    flush: nat -> Outcome,
    delivery: (nat, nat) -> seq<Action>)

  type Progress = map<string, Evidence>

  /** The event is not in the saved progress yet, so it is loaded, handled and saved. */
  predicate Saves(progress: Progress, row: LogRow)
  {
    var s := row.event.session;
    s != "" && !(s in progress && row.id <= progress[s].lastEventId)
  }

  predicate Flushes(row: LogRow) { row.event.session != "" && row.event.operation == "ssh_disconnect" }

  /** Every transaction the n-th event needs goes through and says so. */
  predicate Succeeds(progress: Progress, row: LogRow, weather: Weather, n: nat)
  {
    && (row.event.session != "" ==> weather.load(n))
    && (Saves(progress, row) ==> weather.save(n) == Committed)
    && (Flushes(row) ==> weather.flush(n) == Committed)
  }

  /** An event without a session needs nothing. Any other is loaded, saved unless the saved
      progress has it already, and flushed if it is a disconnect. */
  lemma WhatAnEventNeeds(progress: Progress, row: LogRow, weather: Weather, n: nat)
    ensures var s := row.event.session;
            Succeeds(progress, row, weather, n) <==>
            s == "" || (&& weather.load(n)
                        && ((s in progress && row.id <= progress[s].lastEventId) || weather.save(n) == Committed)
                        && (row.event.operation == "ssh_disconnect" ==> weather.flush(n) == Committed))
  {
  }

  predicate IsDelivery(a: Action)
  {
    a.LogOperation? || a.Poll? || a.Deliver? || a.Acknowledge? || a.WorkerCrash?
  }

  /** After the event `row`, each session's progress is as before or ends at `row`. */
  ghost predicate Moved(before: Progress, after: Progress, row: LogRow)
  {
    && (forall s <- before :: s in after && before[s].lastEventId <= after[s].lastEventId)
    && (forall s <- after :: (s in before && after[s] == before[s]) || after[s].lastEventId == row.id)
  }

  /** The steps that are not the collector's, one after the other, as far as they apply. */
  function Others(rules: Rules, p: Pipe, steps: seq<Action>): Pipe
    decreases |steps|
  {
    if steps == [] then p
    else
      var a := steps[0];
      var collects := a.Fetch? || a.Load? || a.Save? || a.Flush? || a.CollectorRestart?;
      Others(rules, if !collects && Enabled(p, a) then Next(rules, p, a) else p, steps[1..])
  }

  class Streamer {
    var pipe: Pipe

    ghost predicate Valid(rules: Rules)
      reads this
    {
      Delivered(pipe) && WorkerOk(pipe) && CollectorOk(rules, pipe) && CursorOk(pipe)
    }

    constructor (rules: Rules, limit: nat)
      ensures Valid(rules) && pipe.collector == Ready([]) && pipe.limit == limit
    {
      pipe := Pipe([], limit, Pg([], 0), Idle, 0, Ready([]), map[], map[], []);
      new;
      InitialDelivered(pipe);
      InitialCollector(rules, pipe);
    }

    method Step(rules: Rules, a: Action)
      requires Valid(rules) && Enabled(pipe, a)
      modifies this
      ensures Valid(rules) && pipe == Next(rules, old(pipe), a) && old(pipe).pg.rows <= pipe.pg.rows
    {
      hide Delivered, WorkerOk, CollectorOk, CursorOk, Next, Enabled;
      StepKeepsDelivered(rules, pipe, a);
      StepKeepsCollector(rules, pipe, a);
      pipe := Next(rules, pipe, a);
    }

    /** The given steps of participants and of the delivery worker, as far as they apply. */
    method Delivery(rules: Rules, steps: seq<Action>)
      requires Valid(rules)
      modifies this
      ensures Valid(rules) && pipe == Others(rules, old(pipe), steps)
      ensures pipe.collector == old(pipe).collector && pipe.lastId == old(pipe).lastId
      ensures pipe.progress == old(pipe).progress && pipe.evidence == old(pipe).evidence
      ensures old(pipe).pg.rows <= pipe.pg.rows
    {
      hide Delivered, WorkerOk, CollectorOk, CursorOk, Next, Enabled;
      for k := 0 to |steps|
        invariant Valid(rules) && Others(rules, old(pipe), steps) == Others(rules, pipe, steps[k..])
        invariant pipe.collector == old(pipe).collector && pipe.lastId == old(pipe).lastId
        invariant pipe.progress == old(pipe).progress && pipe.evidence == old(pipe).evidence
        invariant old(pipe).pg.rows <= pipe.pg.rows
      {
        assert steps[k..][1..] == steps[k + 1..];
        if IsDelivery(steps[k]) && Enabled(pipe, steps[k]) {
          DeliveryFrame(rules, pipe, steps[k]);
          Step(rules, steps[k]);
        }
      }
    }

    /** `_save_evidence` on the event at the head of the queue. */
    method SaveEvidence(rules: Rules, weather: Weather, n: nat) returns (ok: bool)
      requires Valid(rules) && pipe.collector.Saving? && pipe.collector.queue != []
      requires pipe.collector.data.lastEventId == pipe.collector.queue[0].id
      modifies this
      ensures Valid(rules) && old(pipe).pg.rows <= pipe.pg.rows && ok == (weather.save(n) == Committed)
      ensures var queue := old(pipe).collector.queue;
              if !ok then pipe.collector == Ready([]) && pipe.lastId == old(pipe).lastId
              else if queue[0].event.operation == "ssh_disconnect" then
                pipe.collector.Flushing? && pipe.collector.queue == queue && pipe.lastId == old(pipe).lastId
              else pipe.collector == Ready(queue[1..]) && pipe.lastId == queue[0].id
      ensures Moved(old(pipe).progress, pipe.progress, old(pipe).collector.queue[0])
    {
      hide Delivered, WorkerOk, CollectorOk, CursorOk, Upsert, Others, Moved;
      Delivery(rules, weather.delivery(n, 1));
      ok := weather.save(n) == Committed;
      SaveMoves(rules, pipe);
      Step(rules, Save(weather.save(n)));
    }

    /** `_flush` on the event at the head of the queue. */
    method FlushEvidence(rules: Rules, weather: Weather, n: nat) returns (ok: bool)
      requires Valid(rules) && pipe.collector.Flushing? && pipe.collector.queue != []
      modifies this
      ensures Valid(rules) && old(pipe).pg.rows <= pipe.pg.rows && ok == (weather.flush(n) == Committed)
      ensures pipe.progress == old(pipe).progress
      ensures pipe.collector == Ready(if ok then old(pipe).collector.queue[1..] else [])
      ensures pipe.lastId == if ok then old(pipe).collector.queue[0].id else old(pipe).lastId
    {
      hide Delivered, WorkerOk, CollectorOk, CursorOk, UpsertRow, Others;
      Delivery(rules, weather.delivery(n, 2));
      ok := weather.flush(n) == Committed;
      Step(rules, Flush(weather.flush(n)));
    }

    /** One event through `_process_event`: the cursor moves past it exactly if every
        transaction it needs went through. */
    method Notify(rules: Rules, weather: Weather, n: nat) returns (ok: bool)
      requires Valid(rules) && pipe.collector.Ready? && pipe.collector.queue != []
      modifies this
      ensures Valid(rules) && pipe.collector.Ready? && old(pipe).pg.rows <= pipe.pg.rows
      ensures ok <==> Succeeds(old(pipe).progress, old(pipe).collector.queue[0], weather, n)
      ensures ok ==> pipe.collector.queue == old(pipe).collector.queue[1..] && pipe.lastId == old(pipe).collector.queue[0].id
      ensures !ok ==> pipe.collector.queue == [] && pipe.lastId == old(pipe).lastId
      ensures Moved(old(pipe).progress, pipe.progress, old(pipe).collector.queue[0])
    {
      hide Delivered, WorkerOk, CollectorOk, CursorOk, LoadStep, Others, Moved;
      Delivery(rules, weather.delivery(n, 0));
      HeadIsPositive(rules, pipe);
      LoadOutcome(rules, pipe);
      StaysMoved(pipe.progress, pipe.collector.queue[0]);
      ok := pipe.collector.queue[0].event.session == "" || weather.load(n);
      Step(rules, Load(weather.load(n)));
      if pipe.collector.Saving? { ok := SaveEvidence(rules, weather, n); }
      if pipe.collector.Flushing? { ok := FlushEvidence(rules, weather, n); }
    }

    /** One round of the poll loop: it stops at the first event that fails, leaves it to
        the next round, and whatever it passed is in the saved progress. */
    method PollOnce(rules: Rules, weather: Weather) returns (fetched: seq<LogRow>, passed: nat)
      requires Valid(rules) && pipe.collector == Ready([])
      modifies this
      ensures Valid(rules) && pipe.collector == Ready([]) && old(pipe).pg.rows <= pipe.pg.rows
      ensures fetched == NewRows(old(pipe).pg.rows, old(pipe).lastId) && passed <= |fetched|
      ensures pipe.lastId == if passed == 0 then old(pipe).lastId else fetched[passed - 1].id
      ensures forall k | 0 <= k < passed :: Succeeds(old(pipe).progress, fetched[k], weather, k)
      ensures passed < |fetched| ==> !Succeeds(old(pipe).progress, fetched[passed], weather, passed)
      ensures forall k | 0 <= k < passed && fetched[k].event.session != "" ::
                Saved(pipe, fetched[k].event.session, fetched[k].id)
    {
      hide Delivered, WorkerOk, CursorOk, NewRows, Next, CollectorOk, Succeeds, Moved, SameNeeds, Ascending, Saved;
      Fetching(rules, pipe);
      FetchedAscend(rules, pipe);
      Step(rules, Fetch);
      fetched := pipe.collector.queue;
      passed := 0;
      var going := true;
      NothingMoved(pipe.progress, fetched);
      while going && passed < |fetched|
        invariant Valid(rules) && pipe.collector.Ready? && old(pipe).pg.rows <= pipe.pg.rows
        invariant passed <= |fetched| && pipe.collector.queue == if going then fetched[passed..] else []
        invariant pipe.lastId == if passed == 0 then old(pipe).lastId else fetched[passed - 1].id
        invariant going ==> SameNeeds(old(pipe).progress, pipe.progress, fetched[passed..])
        invariant forall k | 0 <= k < passed :: Succeeds(old(pipe).progress, fetched[k], weather, k)
        invariant !going ==> passed < |fetched| && !Succeeds(old(pipe).progress, fetched[passed], weather, passed)
        decreases |fetched| - passed, going
      {
        ghost var before := pipe.progress;
        assert fetched[passed..][0] == fetched[passed] && fetched[passed..][1..] == fetched[passed + 1..];
        SameSuccess(old(pipe).progress, before, fetched[passed..], weather, passed);
        going := Notify(rules, weather, passed);
        if going {
          NeedsStay(old(pipe).progress, before, pipe.progress, fetched, passed);
          passed := passed + 1;
        }
      }
      PassedIsSaved(rules, old(pipe), pipe, fetched, passed);
    }
  }

  lemma DeliveryFrame(rules: Rules, p: Pipe, a: Action)
    requires IsDelivery(a) && Enabled(p, a)
    ensures var p' := Next(rules, p, a);
            && p'.collector == p.collector && p'.lastId == p.lastId
            && p'.progress == p.progress && p'.evidence == p.evidence
  {
    hide InsertBatch, Append, DeleteAll, Pending;
  }

  lemma HeadIsPositive(rules: Rules, p: Pipe)
    requires CollectorOk(rules, p) && p.collector.queue != []
    ensures p.collector.queue[0].id >= 1
  {
    hide TablesOk, Covered, DataOk;
    RowIdsPositive(p);
  }

  /** Which transactions a loaded event still needs. */
  lemma LoadOutcome(rules: Rules, p: Pipe)
    requires p.collector.Ready? && p.collector.queue != [] && p.collector.queue[0].id >= 1
    ensures var queue := p.collector.queue;
            var row := queue[0];
            var p' := LoadStep(rules, p);
            && p'.progress == p.progress
            && (if Saves(p.progress, row) then
                  p'.collector.Saving? && p'.collector.queue == queue && p'.lastId == p.lastId
                  && p'.collector.data.lastEventId == row.id
                else if Flushes(row) then
                  p'.collector.Flushing? && p'.collector.queue == queue && p'.lastId == p.lastId
                else p'.collector == Ready(queue[1..]) && p'.lastId == row.id)
  {
    var row := p.collector.queue[0];
    DefaultIsOld(row.event.timestamp);
    var s := row.event.session;
    if s != "" && Saves(p.progress, row) {
      HandleStart(rules, if s in p.progress then p.progress[s] else Default(row.event.timestamp), row);
    }
    hide Handle, Default;
  }

  lemma StaysMoved(progress: Progress, row: LogRow)
    ensures Moved(progress, progress, row)
  {
  }

  lemma SaveMoves(rules: Rules, p: Pipe)
    requires p.collector.Saving? && p.collector.queue != [] && p.collector.data.lastEventId == p.collector.queue[0].id
    ensures Moved(p.progress, Upsert(p.progress, p.collector.queue[0].event.session, p.collector.data), p.collector.queue[0])
    ensures Moved(p.progress, p.progress, p.collector.queue[0])
  {
  }

  ghost predicate Saved(p: Pipe, s: string, id: nat)
  {
    s in p.progress && id <= p.progress[s].lastEventId
  }

  lemma Fetching(rules: Rules, p: Pipe)
    requires p.collector.Ready?
    ensures Enabled(p, Fetch) && Next(rules, p, Fetch) == p.(collector := Ready(NewRows(p.pg.rows, p.lastId)))
  {
  }

  lemma FetchedAscend(rules: Rules, p: Pipe)
    requires CollectorOk(rules, p)
    ensures Ascending(NewRows(p.pg.rows, p.lastId))
  {
    hide TablesOk, Covered, QueueOk, DataOk, Below;
  }

  // ---- A poll's events need what they needed at its start -------------------------------------

  /** For these rows the two progress tables decide alike whether to save. */
  ghost predicate SameNeeds(start: Progress, progress: Progress, rows: seq<LogRow>)
  {
    forall k | 0 <= k < |rows| :: Saves(start, rows[k]) <==> Saves(progress, rows[k])
  }

  lemma NothingMoved(progress: Progress, rows: seq<LogRow>)
    ensures rows[0..] == rows && SameNeeds(progress, progress, rows)
  {
  }

  lemma SameSuccess(start: Progress, progress: Progress, rows: seq<LogRow>, weather: Weather, n: nat)
    requires rows != [] && SameNeeds(start, progress, rows)
    ensures Succeeds(start, rows[0], weather, n) <==> Succeeds(progress, rows[0], weather, n)
  {
    hide Saves;
  }

  lemma NeedsStay(start: Progress, before: Progress, after: Progress, rows: seq<LogRow>, n: nat)
    requires n < |rows| && Ascending(rows) && SameNeeds(start, before, rows[n..]) && Moved(before, after, rows[n])
    ensures SameNeeds(start, after, rows[n + 1..])
  {
    var later := rows[n + 1..];
    forall k | 0 <= k < |later| ensures Saves(start, later[k]) <==> Saves(after, later[k]) {
      assert later[k] == rows[n..][k + 1] == rows[n + 1 + k];
      assert rows[n].id < rows[n + 1 + k].id;
    }
  }

  lemma PassedIsSaved(rules: Rules, before: Pipe, p: Pipe, fetched: seq<LogRow>, passed: nat)
    requires CollectorOk(rules, p) && before.pg.rows <= p.pg.rows
    requires fetched == NewRows(before.pg.rows, before.lastId) && passed <= |fetched|
    requires passed > 0 ==> p.lastId == fetched[passed - 1].id
    ensures forall k | 0 <= k < passed && fetched[k].event.session != "" ::
              Saved(p, fetched[k].event.session, fetched[k].id)
  {
    hide TablesOk, QueueOk, DataOk, Below;
    var from := Below(before.pg.rows, before.lastId);
    forall k | 0 <= k < passed && fetched[k].event.session != ""
      ensures Saved(p, fetched[k].event.session, fetched[k].id)
    {
      assert fetched[k] == before.pg.rows[from + k] == p.pg.rows[from + k];
      assert fetched[passed - 1] == p.pg.rows[from + passed - 1];
      assert p.pg.rows[from + k].id <= p.lastId;
    }
  }
}
