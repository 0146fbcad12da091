/** Outbox, audit log, poller and evidence tables together, under crashes, commits whose
    outcome never arrives, and restarts. One delivery worker and one collector run at a
    time; each database transaction is one step. */
module AuditPipeline {
  import opened AuditSpool
  import opened EvidenceFold

  const DELIVERY_BATCH: nat := 100
  const POLL_BATCH: nat := 1000

  /** `audit_log` and its BIGSERIAL, which conflicts and aborts also use up. */
  datatype Pg = Pg(rows: seq<LogRow>, serial: nat)

  predicate Has(rows: seq<LogRow>, id: EventId)
  {
    exists k | 0 <= k < |rows| :: rows[k].event.eventId == id
  }

  /** INSERT … ON CONFLICT (event_id) DO NOTHING, for each event of the batch. */
  function InsertBatch(pg: Pg, batch: seq<AuditEvent>): Pg
    decreases |batch|
  {
    if batch == [] then pg
    else
      var id := pg.serial + 1;
      InsertBatch(Pg(if Has(pg.rows, batch[0].eventId) then pg.rows else pg.rows + [LogRow(id, batch[0])], id), batch[1..])
  }

  datatype Worker = Idle | Loaded(batch: seq<AuditEvent>) | Acking(batch: seq<AuditEvent>)

  datatype Collector =
    | Ready(queue: seq<LogRow>)
    | Saving(queue: seq<LogRow>, data: Evidence)
    | Flushing(queue: seq<LogRow>, data: Evidence)

  /** `admitted` lists every event the spool ever accepted (a history variable). */
  datatype Pipe = Pipe(
    spool: seq<Row>,
    limit: nat,
    pg: Pg,
    worker: Worker,
    lastId: nat,
    collector: Collector,
    progress: map<string, Evidence>,
    evidence: map<string, Evidence>,
    admitted: seq<AuditEvent>)

  /** How a transaction may end: it commits; it commits but the client sees an error; it
      does not commit. */
  datatype Outcome = Committed | Uncertain | Aborted

  datatype Action =
    | LogOperation(event: AuditEvent, size: nat, stored: bool)
    | Poll
    | Deliver(outcome: Outcome, burnt: nat)
    | Acknowledge(outcome: Outcome)
    | WorkerCrash
    | Fetch
    | Load(ok: bool)
    | Save(outcome: Outcome)
    | Flush(outcome: Outcome)
    | CollectorRestart

  predicate Enabled(p: Pipe, a: Action)
  {
    match a
    case LogOperation(e, _, _) => forall k | 0 <= k < |p.admitted| :: p.admitted[k].eventId != e.eventId   // uuid4
    case Poll => p.worker.Idle?
    case Deliver(_, _) => p.worker.Loaded?
    case Acknowledge(_) => p.worker.Acking?
    case WorkerCrash => true
    case Fetch => p.collector.Ready?
    case Load(_) => p.collector.Ready? && p.collector.queue != []
    case Save(_) => p.collector.Saving? && p.collector.queue != []
    case Flush(_) => p.collector.Flushing? && p.collector.queue != []
    case CollectorRestart => true
  }

  /** SELECT … WHERE id > last ORDER BY id LIMIT 1000. */
  function NewRows(rows: seq<LogRow>, lastId: nat): seq<LogRow>
  {
    var from := Below(rows, lastId);
    if |rows| - from <= POLL_BATCH then rows[from..] else rows[from..from + POLL_BATCH]
  }

  /** How many rows, counted from the oldest, have an id up to `last`. */
  function Below(rows: seq<LogRow>, last: nat): (n: nat)
    ensures n <= |rows|
    decreases |rows|
  {
    if rows == [] then 0
    else if rows[|rows| - 1].id <= last then |rows|
    else Below(rows[..|rows| - 1], last)
  }

  /** Upsert fenced by last_event_id. */
  function Upsert(table: map<string, Evidence>, s: string, data: Evidence): map<string, Evidence>
  {
    if s in table && table[s].lastEventId >= data.lastEventId then table else table[s := data]
  }

  /** The evidence row's upsert never updates start_time. */
  function UpsertRow(table: map<string, Evidence>, s: string, data: Evidence): map<string, Evidence>
  {
    Upsert(table, s, if s in table then data.(startTime := table[s].startTime) else data)
  }

  function Advance(p: Pipe): Pipe
    requires p.collector.queue != []
  {
    p.(lastId := p.collector.queue[0].id, collector := Ready(p.collector.queue[1..]))
  }

  /** Any error leaves the event to the next poll. */
  function GiveUp(p: Pipe): Pipe
  {
    p.(collector := Ready([]))
  }

  function LoadStep(rules: Rules, p: Pipe): Pipe
    requires p.collector.Ready? && p.collector.queue != []
  {
    var queue := p.collector.queue;
    var row := queue[0];
    var s := row.event.session;
    if s == "" then Advance(p)
    else
      var data := if s in p.progress then p.progress[s] else Default(row.event.timestamp);
      if row.id <= data.lastEventId then
        if row.event.operation == "ssh_disconnect" then p.(collector := Flushing(queue, data)) else Advance(p)
      else p.(collector := Saving(queue, Handle(rules, data, row)))
  }

  function Next(rules: Rules, p: Pipe, a: Action): Pipe
    requires Enabled(p, a)
  {
    match a
    case LogOperation(e, size, stored) =>
      if e.session == "" then p
      else
        var (rows, result) := Append(p.spool, p.limit, e, size, stored);
        p.(spool := rows, admitted := if result.Admitted? then p.admitted + [e] else p.admitted)
    case Poll =>
      var batch := Pending(p.spool, DELIVERY_BATCH);
      p.(worker := if batch == [] then Idle else Loaded(batch))
    case Deliver(outcome, burnt) =>
      (match outcome
       case Committed => p.(pg := InsertBatch(p.pg, p.worker.batch), worker := Acking(p.worker.batch))
       case Uncertain => p.(pg := InsertBatch(p.pg, p.worker.batch), worker := Idle)
       case Aborted => p.(pg := p.pg.(serial := p.pg.serial + burnt), worker := Idle))
    case Acknowledge(outcome) =>
      p.(spool := if outcome.Aborted? then p.spool else DeleteAll(p.spool, Ids(p.worker.batch)), worker := Idle)
    case WorkerCrash => p.(worker := Idle)
    case Fetch => p.(collector := Ready(NewRows(p.pg.rows, p.lastId)))
    case Load(ok) => if ok || p.collector.queue[0].event.session == "" then LoadStep(rules, p) else GiveUp(p)
    case Save(outcome) =>
      var row := p.collector.queue[0];
      var saved := if outcome.Aborted? then p
                   else p.(progress := Upsert(p.progress, row.event.session, p.collector.data));
      if !outcome.Committed? then GiveUp(saved)
      else if row.event.operation == "ssh_disconnect" then
        saved.(collector := Flushing(p.collector.queue, p.collector.data))
      else Advance(saved)
    case Flush(outcome) =>
      var flushed := if outcome.Aborted? then p
                     else p.(evidence := UpsertRow(p.evidence, p.collector.queue[0].event.session, p.collector.data));
      if outcome.Committed? then Advance(flushed) else GiveUp(flushed)
    case CollectorRestart => p.(lastId := 0, collector := Ready([]))
  }

  ghost predicate Initial(p: Pipe)
  {
    && p.spool == [] && p.pg.rows == [] && p.worker == Idle && p.lastId == 0 && p.collector == Ready([])
    && p.progress == map[] && p.evidence == map[] && p.admitted == []
  }

  ghost predicate Steps(rules: Rules, p: Pipe, a: Action, p': Pipe)
  {
    Enabled(p, a) && p' == Next(rules, p, a)
  }

  ghost predicate Run(rules: Rules, run: seq<Pipe>, actions: seq<Action>)
  {
    && |run| == |actions| + 1 && Initial(run[0])
    && forall t | 0 < t < |run| :: Steps(rules, run[t - 1], actions[t - 1], run[t])
  }

  /** Crashes and restarts come at any moment, each transaction may end in all three ways,
      and what was only in memory is lost. */
  lemma FaultsAtAnyMoment(rules: Rules, p: Pipe, outcome: Outcome, burnt: nat)
    ensures Enabled(p, WorkerCrash) && Next(rules, p, WorkerCrash) == p.(worker := Idle)
    ensures Enabled(p, CollectorRestart) && Next(rules, p, CollectorRestart) == p.(lastId := 0, collector := Ready([]))
    ensures p.worker.Loaded? ==>
              && Enabled(p, Deliver(outcome, burnt))
              && Next(rules, p, Deliver(outcome, burnt)).worker == (if outcome == Committed then Acking(p.worker.batch) else Idle)
              && (outcome == Aborted ==> Next(rules, p, Deliver(outcome, burnt)).pg == Pg(p.pg.rows, p.pg.serial + burnt))
              && (outcome == Uncertain ==>
                    Next(rules, p, Deliver(outcome, burnt)).pg == Next(rules, p, Deliver(Committed, burnt)).pg)
    ensures p.worker.Acking? ==>
              && Enabled(p, Acknowledge(outcome)) && Next(rules, p, Acknowledge(outcome)).worker == Idle
              && (outcome == Aborted ==> Next(rules, p, Acknowledge(outcome)).spool == p.spool)
    ensures p.collector.Saving? && p.collector.queue != [] && outcome != Committed ==>
              && Enabled(p, Save(outcome)) && Next(rules, p, Save(outcome)).collector == Ready([])
              && Next(rules, p, Save(outcome)).lastId == p.lastId
    ensures p.collector.Flushing? && p.collector.queue != [] && outcome != Committed ==>
              && Enabled(p, Flush(outcome)) && Next(rules, p, Flush(outcome)).collector == Ready([])
              && Next(rules, p, Flush(outcome)).lastId == p.lastId
  {
    hide InsertBatch, DeleteAll, Upsert, UpsertRow;
  }

  /** An operation is admitted exactly if it has a session, its event fits in 64 KiB, the
      outbox is below its limit and SQLite has room; then it is the newest, else nothing
      changes. */
  lemma AdmittedExactlyWhen(rules: Rules, p: Pipe, e: AuditEvent, size: nat, stored: bool)
    requires Enabled(p, LogOperation(e, size, stored))
    ensures var p' := Next(rules, p, LogOperation(e, size, stored));
            if e.session != "" && size <= 65536 && |p.spool| < p.limit && stored then
              && p' == p.(spool := p'.spool, admitted := p.admitted + [e])
              && |p'.spool| == |p.spool| + 1 && p'.spool[..|p.spool|] == p.spool && p'.spool[|p.spool|].event == e
            else p' == p
  {
  }

  /** A poll loads the oldest hundred events, or as many as there are, and only if there are
      any. */
  lemma PollTakesOldest(rules: Rules, p: Pipe)
    requires p.worker.Idle?
    ensures var p' := Next(rules, p, Poll);
            && p' == p.(worker := p'.worker) && (p.spool == [] <==> p'.worker.Idle?)
            && (p.spool != [] ==>
                  && p'.worker.Loaded?
                  && |p'.worker.batch| == (if |p.spool| <= 100 then |p.spool| else 100)
                  && forall k | 0 <= k < |p'.worker.batch| :: p'.worker.batch[k] == p.spool[k].event)
  {
  }

  lemma {:induction false} DeletedRows(rows: seq<Row>, id: EventId, row: Row)
    ensures row in Delete(rows, id) <==> row in rows && row.event.eventId != id
    decreases |rows|
  {
    if rows != [] {
      DeletedRows(rows[1..], id, row);
      assert rows == [rows[0]] + rows[1..];
    }
  }

  lemma {:induction false} AllDeletedRows(rows: seq<Row>, ids: seq<EventId>, row: Row)
    ensures row in DeleteAll(rows, ids) <==> row in rows && row.event.eventId !in ids
    decreases |ids|
  {
    if ids != [] {
      DeletedRows(rows, ids[0], row);
      AllDeletedRows(Delete(rows, ids[0]), ids[1..], row);
      assert ids == [ids[0]] + ids[1..];
    }
  }

  /** An acknowledgement, unless aborted, takes exactly the batch's events out of the outbox. */
  lemma AcknowledgeDeletes(rules: Rules, p: Pipe, outcome: Outcome, row: Row)
    requires p.worker.Acking? && outcome != Aborted
    ensures var spool' := Next(rules, p, Acknowledge(outcome)).spool;
            row in spool' <==> row in p.spool && forall e <- p.worker.batch :: e.eventId != row.event.eventId
  {
    var batch := p.worker.batch;
    AllDeletedRows(p.spool, Ids(batch), row);
    forall e <- batch ensures e.eventId in Ids(batch) {
      var k :| 0 <= k < |batch| && batch[k] == e;
      assert Ids(batch)[k] == e.eventId;
    }
    if row.event.eventId in Ids(batch) {
      var k :| 0 <= k < |Ids(batch)| && Ids(batch)[k] == row.event.eventId;
      assert batch[k] in batch;
    }
  }
}
