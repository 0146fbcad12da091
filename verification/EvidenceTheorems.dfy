/** What holds of the saved records in every run of the audit and evidence pipeline. */
module EvidenceTheorems {
  import opened Wrappers
  import opened AuditSpool
  import opened EvidenceFold
  import opened AuditPipeline
  import opened AuditDelivery
  import opened EvidenceExactlyOnce

  /** Saved progress, and every evidence row, is the fold of the handler over exactly the
      session's log events up to its last event id; a row is never ahead of the progress. */
  lemma RecordsAreFolds(rules: Rules, run: seq<Pipe>, actions: seq<Action>, t: nat, s: string)
    requires Run(rules, run, actions) && t < |run|
    ensures var p := run[t];
            && (s in p.progress ==> FoldTo(rules, p.pg.rows, s, p.progress[s].lastEventId) == Some(p.progress[s]))
            && (s in p.evidence ==>
                  && FoldTo(rules, p.pg.rows, s, p.evidence[s].lastEventId) == Some(p.evidence[s])
                  && s in p.progress && p.evidence[s].lastEventId <= p.progress[s].lastEventId)
  {
    hide Run, FoldTo, Covered, QueueOk, DataOk;
    RunKeepsCollector(rules, run, actions, t);
  }

  /** No session vanishes from a table and no record moves back. */
  ghost predicate Forward(before: map<string, Evidence>, after: map<string, Evidence>)
  {
    forall s <- before :: s in after && before[s].lastEventId <= after[s].lastEventId
  }

  lemma LoadKeepsTables(rules: Rules, p: Pipe)
    requires p.collector.Ready? && p.collector.queue != []
    ensures LoadStep(rules, p).progress == p.progress && LoadStep(rules, p).evidence == p.evidence
  {
    hide Handle, Default;
  }

  lemma UpsertForward(table: map<string, Evidence>, s: string, data: Evidence)
    ensures Forward(table, Upsert(table, s, data)) && Forward(table, UpsertRow(table, s, data))
  {
  }

  lemma SameForward(table: map<string, Evidence>)
    ensures Forward(table, table)
  {
  }

  lemma StepIsForward(rules: Rules, p: Pipe, a: Action)
    requires Enabled(p, a)
    ensures Forward(p.progress, Next(rules, p, a).progress) && Forward(p.evidence, Next(rules, p, a).evidence)
  {
    hide LoadStep, Upsert, UpsertRow, InsertBatch, Append, DeleteAll, NewRows, Forward;
    SameForward(p.progress);
    SameForward(p.evidence);
    match a
    case Load(_) => LoadKeepsTables(rules, p);
    case Save(_) => UpsertForward(p.progress, p.collector.queue[0].event.session, p.collector.data);
    case Flush(_) => UpsertForward(p.evidence, p.collector.queue[0].event.session, p.collector.data);
    case _ =>
  }

  lemma {:induction false} RecordsNeverGoBack(rules: Rules, run: seq<Pipe>, actions: seq<Action>, t: nat, u: nat)
    requires Run(rules, run, actions) && t <= u < |run|
    ensures Forward(run[t].progress, run[u].progress) && Forward(run[t].evidence, run[u].evidence)
    decreases u
  {
    hide Next, Enabled, Initial;
    if t < u {
      RecordsNeverGoBack(rules, run, actions, t, u - 1);
      assert Steps(rules, run[u - 1], actions[u - 1], run[u]);
      StepIsForward(rules, run[u - 1], actions[u - 1]);
    }
  }

  lemma {:induction false} SubmittedOfPrefix(events: seq<AuditEvent>, k: nat, s: string)
    requires k <= |events|
    ensures Submitted(events[..k], s) <= Submitted(events, s)
    decreases |events|
  {
    if k == |events| {
      assert events[..k] == events;
    } else {
      var front := events[..|events| - 1];
      assert front[..k] == events[..k];
      SubmittedOfPrefix(front, k, s);
    }
  }

  /** A fold lists the commands of the first so many log rows. */
  lemma FoldListsPrefix(rules: Rules, rows: seq<LogRow>, s: string, data: Evidence)
    requires Ascending(rows) && FoldTo(rules, rows, s, data.lastEventId) == Some(data)
    ensures Listed(data) == Submitted(RowEvents(rows)[..Below(rows, data.lastEventId)], s)
  {
    hide FoldTo, Submitted, Listed;
    var last := data.lastEventId;
    var n := Below(rows, last);
    BelowSplits(rows, last);
    FoldPrefix(rules, rows, n, s, last);
    assert Ascending(rows[..n]);
    FoldLists(rules, rows[..n], s, last);
    assert RowEvents(rows[..n]) == RowEvents(rows)[..n];
  }

  lemma RecordIsPrefix(rules: Rules, p: Pipe, s: string, data: Evidence)
    requires Delivered(p) && FoldTo(rules, p.pg.rows, s, data.lastEventId) == Some(data)
    ensures Below(p.pg.rows, data.lastEventId) <= |p.admitted|
    ensures Listed(data) == Submitted(p.admitted[..Below(p.pg.rows, data.lastEventId)], s)
    ensures Listed(data) <= Submitted(p.admitted, s)
  {
    hide FoldTo, Submitted, Listed, Ordered, Distinct;
    FoldListsPrefix(rules, p.pg.rows, s, data);
    var n := Below(p.pg.rows, data.lastEventId);
    assert RowEvents(p.pg.rows)[..n] == p.admitted[..n];
    SubmittedOfPrefix(p.admitted, n, s);
  }

  /** The commands in progress and evidence are a prefix of the session's admitted command
      submissions, in order and without repeats. */
  lemma CommandsAreAdmittedPrefix(rules: Rules, run: seq<Pipe>, actions: seq<Action>, t: nat, s: string)
    requires Run(rules, run, actions) && t < |run|
    ensures var p := run[t];
            && (s in p.progress ==> Listed(p.progress[s]) <= Submitted(p.admitted, s))
            && (s in p.evidence ==> Listed(p.evidence[s]) <= Submitted(p.admitted, s))
  {
    hide Run, FoldTo, Delivered, Listed, Submitted;
    RecordsAreFolds(rules, run, actions, t, s);
    ExactlyOnceDelivery(rules, run, actions, t);
    var p := run[t];
    if s in p.progress { RecordIsPrefix(rules, p, s, p.progress[s]); }
    if s in p.evidence { RecordIsPrefix(rules, p, s, p.evidence[s]); }
  }

  /** Once the poller's cursor has reached the end of a log that holds all admitted events,
      the saved progress lists every admitted command of the session. */
  lemma CaughtUpIsComplete(rules: Rules, run: seq<Pipe>, actions: seq<Action>, t: nat, s: string)
    requires Run(rules, run, actions) && t < |run| && s != ""
    requires var p := run[t];
             p.spool == [] && Below(p.pg.rows, p.lastId) == |p.pg.rows|
    ensures var p := run[t];
            Submitted(p.admitted, s) == (if s in p.progress then Listed(p.progress[s]) else [])
  {
    hide Run, FoldTo, Listed, Submitted, QueueOk, DataOk, Ordered, Distinct;
    RunKeepsCollector(rules, run, actions, t);
    ExactlyOnceDelivery(rules, run, actions, t);
    AllCounted(rules, run[t], s);
  }

  lemma AllCounted(rules: Rules, p: Pipe, s: string)
    requires Delivered(p) && TablesOk(rules, p) && Covered(p) && s != ""
    requires p.spool == [] && Below(p.pg.rows, p.lastId) == |p.pg.rows|
    ensures Submitted(p.admitted, s) == (if s in p.progress then Listed(p.progress[s]) else [])
  {
    hide FoldTo, Listed, Submitted, Ordered, Distinct, Below;
    var rows := p.pg.rows;
    BelowSplits(rows, p.lastId);
    var top := if s in p.progress && p.progress[s].lastEventId > p.lastId then p.progress[s].lastEventId else p.lastId;
    assert RowEvents(rows) == p.admitted;
    FoldLists(rules, rows, s, top);
    if s in p.progress {
      FoldCut(rules, rows, s, p.progress[s].lastEventId, top);
    } else {
      forall k | 0 <= k < |rows| ensures rows[k].event.session != s { assert rows[k].id <= p.lastId; }
      FoldNothing(rules, rows, s, top);
    }
  }
}
