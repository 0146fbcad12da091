/** Saved progress and evidence rows are always folds of the handler over a session's
    events, whatever fails or restarts. */
module EvidenceExactlyOnce {
  import opened Wrappers
  import opened EvidenceFold
  import opened AuditPipeline
  import opened AuditDelivery

  // ---- Cutting the log at an id ------------------------------------------------------

  lemma {:induction false} BelowSplits(rows: seq<LogRow>, last: nat)
    requires Ascending(rows)
    ensures var n := Below(rows, last);
            && (forall k | 0 <= k < n :: rows[k].id <= last)
            && (forall k | n <= k < |rows| :: rows[k].id > last)
    decreases |rows|
  {
    if rows != [] && rows[|rows| - 1].id > last {
      var front := rows[..|rows| - 1];
      assert Ascending(front);
      BelowSplits(front, last);
      forall k | Below(rows, last) <= k < |rows| ensures rows[k].id > last {
        if k < |rows| - 1 { assert front[k] == rows[k]; }
      }
      forall k | 0 <= k < Below(rows, last) ensures rows[k].id <= last { assert front[k] == rows[k]; }
    }
  }

  /** Rows of other sessions, or beyond both cuts, or within both, do not tell two cuts
      apart. */
  lemma {:induction false} FoldCut(rules: Rules, rows: seq<LogRow>, s: string, a: nat, b: nat)
    requires forall k | 0 <= k < |rows| && rows[k].event.session == s :: rows[k].id <= a <==> rows[k].id <= b
    ensures FoldTo(rules, rows, s, a) == FoldTo(rules, rows, s, b)
    decreases |rows|
  {
    hide Handle;
    if rows != [] {
      forall k | 0 <= k < |FrontRows(rows)| && FrontRows(rows)[k].event.session == s
        ensures FrontRows(rows)[k].id <= a <==> FrontRows(rows)[k].id <= b
      {
        assert FrontRows(rows)[k] == rows[k];
      }
      FoldCut(rules, FrontRows(rows), s, a, b);
    }
  }

  /** Rows after the first `n` with larger ids do not count. */
  lemma {:induction false} FoldPrefix(rules: Rules, rows: seq<LogRow>, n: nat, s: string, upTo: nat)
    requires n <= |rows| && forall k | n <= k < |rows| :: rows[k].id > upTo
    ensures FoldTo(rules, rows, s, upTo) == FoldTo(rules, rows[..n], s, upTo)
    decreases |rows|
  {
    hide Handle;
    if n == |rows| {
      assert rows[..n] == rows;
    } else {
      var front := FrontRows(rows);
      assert front[..n] == rows[..n];
      forall k | n <= k < |front| ensures front[k].id > upTo { assert front[k] == rows[k]; }
      FoldPrefix(rules, front, n, s, upTo);
    }
  }

  lemma {:induction false} FoldStart(rules: Rules, rows: seq<LogRow>, s: string, a: nat, b: nat)
    requires a <= b && Ascending(rows) && FoldTo(rules, rows, s, a).Some?
    ensures FoldTo(rules, rows, s, b).Some?
    ensures FoldTo(rules, rows, s, a).value.startTime == FoldTo(rules, rows, s, b).value.startTime
    decreases |rows|
  {
    hide OnCommand, OnResult, OnPath, OnDisconnect;
    var front := FrontRows(rows);
    var row := rows[|rows| - 1];
    assert Ascending(front);
    if row.event.session != s || row.id > b {
      FoldStart(rules, front, s, a, b);
    } else {
      if FoldTo(rules, front, s, a).Some? {
        FoldStart(rules, front, s, a, b);
        HandleStart(rules, FoldTo(rules, front, s, b).value, row);
        if row.id <= a { HandleStart(rules, FoldTo(rules, front, s, a).value, row); }
      } else {
        assert row.id <= a;
        forall k | 0 <= k < |front| ensures front[k].id <= a <==> front[k].id <= b { assert front[k] == rows[k]; }
        FoldCut(rules, front, s, a, b);
      }
    }
  }

  lemma HandleStart(rules: Rules, data: Evidence, row: LogRow)
    ensures Handle(rules, data, row).startTime == data.startTime && Handle(rules, data, row).lastEventId == row.id
  {
  }

  lemma {:induction false} FoldNothing(rules: Rules, rows: seq<LogRow>, s: string, upTo: nat)
    requires forall k | 0 <= k < |rows| :: rows[k].event.session != s || rows[k].id > upTo
    ensures FoldTo(rules, rows, s, upTo).None?
    decreases |rows|
  {
    if rows != [] {
      var front := FrontRows(rows);
      forall k | 0 <= k < |front| ensures front[k].event.session != s || front[k].id > upTo { assert front[k] == rows[k]; }
      FoldNothing(rules, front, s, upTo);
    }
  }

  /** Handling row j of a session whose saved progress covers everything before it gives
      the fold up to that row. */
  lemma NextFold(rules: Rules, rows: seq<LogRow>, j: nat, data: Option<Evidence>)
    requires Ascending(rows) && j < |rows|
    requires var s := rows[j].event.session;
             && (data.Some? ==> data == FoldTo(rules, rows, s, data.value.lastEventId)
                                && data.value.lastEventId < rows[j].id
                                && forall k | 0 <= k < j && rows[k].event.session == s :: rows[k].id <= data.value.lastEventId)
             && (data.None? ==> forall k | 0 <= k < j :: rows[k].event.session != s)
    ensures FoldTo(rules, rows, rows[j].event.session, rows[j].id) ==
            Some(Handle(rules, if data.Some? then data.value else Default(rows[j].event.timestamp), rows[j]))
  {
    hide Handle, Default;
    var s := rows[j].event.session;
    var row := rows[j];
    var upto := rows[..j + 1];
    FoldPrefix(rules, rows, j + 1, s, row.id);
    assert FrontRows(upto) == rows[..j] && upto[|upto| - 1] == row;
    if data.Some? {
      FoldPrefix(rules, rows, j, s, data.value.lastEventId);
      FoldCut(rules, rows[..j], s, data.value.lastEventId, row.id);
    } else {
      FoldNothing(rules, rows[..j], s, row.id);
    }
  }

  // ---- The collector's invariant --------------------------------------------------------

  /** `data` is the fold of session `s` up to its own last event id. */
  ghost predicate IsFold(rules: Rules, rows: seq<LogRow>, s: string, data: Evidence)
  {
    && FoldTo(rules, rows, s, data.lastEventId) == Some(data)
    && 0 < Below(rows, data.lastEventId) && rows[Below(rows, data.lastEventId) - 1].id == data.lastEventId
  }

  ghost predicate TablesOk(rules: Rules, p: Pipe)
  {
    && (forall s <- p.progress :: IsFold(rules, p.pg.rows, s, p.progress[s]))
    && (forall s <- p.evidence ::
          && IsFold(rules, p.pg.rows, s, p.evidence[s])
          && s in p.progress && p.evidence[s].lastEventId <= p.progress[s].lastEventId)
  }

  /** Everything up to the poller's cursor is in the saved progress. */
  ghost predicate Covered(p: Pipe)
  {
    forall k | 0 <= k < |p.pg.rows| && p.pg.rows[k].id <= p.lastId && p.pg.rows[k].event.session != "" ::
      var s := p.pg.rows[k].event.session;
      s in p.progress && p.pg.rows[k].id <= p.progress[s].lastEventId
  }

  /** The rows at hand are the next ones after the cursor. */
  ghost predicate QueueOk(p: Pipe)
  {
    var from := Below(p.pg.rows, p.lastId);
    p.collector.queue <= p.pg.rows[from..]
  }

  ghost predicate DataOk(rules: Rules, p: Pipe)
  {
    match p.collector
    case Ready(_) => true
    case Saving(queue, data) =>
      && queue != [] && queue[0].event.session != ""
      && data.lastEventId == queue[0].id
      && (queue[0].event.session in p.progress ==> p.progress[queue[0].event.session].lastEventId < queue[0].id)
      && FoldTo(rules, p.pg.rows, queue[0].event.session, queue[0].id) == Some(data)
    case Flushing(queue, data) =>
      && queue != [] && queue[0].event.session in p.progress
      && data == p.progress[queue[0].event.session] && queue[0].id <= data.lastEventId
  }

  ghost predicate CollectorOk(rules: Rules, p: Pipe)
  {
    Ascending(p.pg.rows) && TablesOk(rules, p) && Covered(p) && QueueOk(p) && DataOk(rules, p)
  }

  /** Row `queue[0]` sits right after the cursor. */
  lemma HeadRow(p: Pipe)
    requires Ascending(p.pg.rows) && QueueOk(p) && p.collector.queue != []
    ensures var j := Below(p.pg.rows, p.lastId);
            && j < |p.pg.rows| && p.pg.rows[j] == p.collector.queue[0] && p.lastId < p.pg.rows[j].id
            && (forall k | 0 <= k < j :: p.pg.rows[k].id <= p.lastId)
            && Below(p.pg.rows, p.pg.rows[j].id) == j + 1
  {
    BelowSplits(p.pg.rows, p.lastId);
    var j := Below(p.pg.rows, p.lastId);
    assert p.pg.rows[j..][0] == p.pg.rows[j];
    assert p.collector.queue[0] == p.pg.rows[j..][0];
    BelowSplits(p.pg.rows, p.pg.rows[j].id);
    var n := Below(p.pg.rows, p.pg.rows[j].id);
    assert j + 1 < |p.pg.rows| ==> p.pg.rows[j].id < p.pg.rows[j + 1].id;
    assert j < n <= j + 1;
  }

  lemma AdvanceKeeps(rules: Rules, p: Pipe)
    requires Ascending(p.pg.rows) && TablesOk(rules, p) && Covered(p) && QueueOk(p) && p.collector.queue != []
    requires var row := p.collector.queue[0];
             row.event.session != "" ==>
               row.event.session in p.progress && row.id <= p.progress[row.event.session].lastEventId
    ensures CollectorOk(rules, Advance(p))
  {
    hide TablesOk;
    var p' := Advance(p);
    var j := Below(p.pg.rows, p.lastId);
    HeadRow(p);
    assert TablesOk(rules, p') by { SameTables(rules, p, p'); }
    forall k | 0 <= k < |p.pg.rows| && p.pg.rows[k].id <= p'.lastId && p.pg.rows[k].event.session != ""
      ensures p.pg.rows[k].event.session in p.progress
      ensures p.pg.rows[k].id <= p.progress[p.pg.rows[k].event.session].lastEventId
    {
      assert k <= j;
    }
    assert p.pg.rows[j..][1..] == p.pg.rows[j + 1..];
  }

  lemma SameTables(rules: Rules, p: Pipe, p': Pipe)
    requires TablesOk(rules, p) && p'.pg == p.pg && p'.progress == p.progress && p'.evidence == p.evidence
    ensures TablesOk(rules, p')
  {
  }

  lemma GiveUpKeeps(rules: Rules, p: Pipe)
    requires Ascending(p.pg.rows) && TablesOk(rules, p) && Covered(p)
    ensures CollectorOk(rules, GiveUp(p))
  {
    hide TablesOk;
    SameTables(rules, p, GiveUp(p));
  }

  lemma LoadKeeps(rules: Rules, p: Pipe)
    requires CollectorOk(rules, p) && p.collector.Ready? && p.collector.queue != []
    ensures CollectorOk(rules, LoadStep(rules, p))
  {
    hide Handle, Default, FoldTo;
    var row := p.collector.queue[0];
    var s := row.event.session;
    HeadRow(p);
    if s == "" {
      AdvanceKeeps(rules, p);
    } else {
      var data := if s in p.progress then p.progress[s] else Default(row.event.timestamp);
      DefaultIsOld(row.event.timestamp);
      RowIdsPositive(p);
      if row.id <= data.lastEventId {
        if row.event.operation == "ssh_disconnect" {
          SameTables(rules, p, LoadStep(rules, p));
        } else {
          AdvanceKeeps(rules, p);
        }
      } else {
        NextFold(rules, p.pg.rows, Below(p.pg.rows, p.lastId), if s in p.progress then Some(data) else None);
        HandleStart(rules, data, row);
        SameTables(rules, p, LoadStep(rules, p));
      }
    }
  }

  lemma DefaultIsOld(t: int)
    ensures Default(t).lastEventId == 0
  {
  }

  lemma RowIdsPositive(p: Pipe)
    requires Ascending(p.pg.rows) && QueueOk(p) && p.collector.queue != []
    ensures p.collector.queue[0].id >= 1
  {
    HeadRow(p);
  }

  lemma SaveKeeps(rules: Rules, p: Pipe, outcome: Outcome)
    requires CollectorOk(rules, p) && Enabled(p, Save(outcome))
    ensures CollectorOk(rules, Next(rules, p, Save(outcome)))
  {
    hide FoldTo, TablesOk, Covered;
    var row := p.collector.queue[0];
    var s := row.event.session;
    var saved := if outcome.Aborted? then p else p.(progress := Upsert(p.progress, s, p.collector.data));
    HeadRow(p);
    SavedTables(rules, p, saved, s);
    if !outcome.Committed? {
      GiveUpKeeps(rules, saved);
    } else {
      assert p.collector.data.lastEventId == row.id;
      SavedIsData(rules, p, saved, s);
      if row.event.operation == "ssh_disconnect" {
        SameTables(rules, saved, Next(rules, p, Save(outcome)));
        assert Covered(Next(rules, p, Save(outcome))) by { SameCovered(saved, Next(rules, p, Save(outcome))); }
      } else {
        AdvanceKeeps(rules, saved);
      }
    }
  }

  lemma SameCovered(p: Pipe, p': Pipe)
    requires Covered(p) && p'.pg == p.pg && p'.progress == p.progress && p'.lastId == p.lastId
    ensures Covered(p')
  {
  }

  lemma SavedTables(rules: Rules, p: Pipe, saved: Pipe, s: string)
    requires CollectorOk(rules, p) && p.collector.Saving? && s == p.collector.queue[0].event.session
    requires saved == p || saved == p.(progress := Upsert(p.progress, s, p.collector.data))
    ensures TablesOk(rules, saved) && Covered(saved)
  {
    hide TablesOk, Covered, FoldTo, Ascending;
    if saved != p {
      assert IsFold(rules, p.pg.rows, s, p.collector.data) by { HeadRow(p); }
      SavedProgress(rules, p, saved, s);
      SavedCovered(p, saved, s);
    }
  }

  lemma SavedProgress(rules: Rules, p: Pipe, saved: Pipe, s: string)
    requires TablesOk(rules, p) && p.collector.Saving? && IsFold(rules, p.pg.rows, s, p.collector.data)
    requires saved == p.(progress := Upsert(p.progress, s, p.collector.data))
    ensures TablesOk(rules, saved)
  {
    hide IsFold;
  }

  lemma SavedCovered(p: Pipe, saved: Pipe, s: string)
    requires Covered(p) && p.collector.Saving?
    requires saved == p.(progress := Upsert(p.progress, s, p.collector.data))
    ensures Covered(saved)
  {
  }

  lemma SavedIsData(rules: Rules, p: Pipe, saved: Pipe, s: string)
    requires CollectorOk(rules, p) && p.collector.Saving? && s == p.collector.queue[0].event.session
    requires saved == p.(progress := Upsert(p.progress, s, p.collector.data))
    ensures s in saved.progress && p.collector.queue[0].id <= saved.progress[s].lastEventId
  {
    hide FoldTo, TablesOk, Covered;
  }

  lemma FlushKeeps(rules: Rules, p: Pipe, outcome: Outcome)
    requires CollectorOk(rules, p) && Enabled(p, Flush(outcome))
    ensures CollectorOk(rules, Next(rules, p, Flush(outcome)))
  {
    hide FoldTo, TablesOk, Covered;
    var s := p.collector.queue[0].event.session;
    var flushed := if outcome.Aborted? then p else p.(evidence := UpsertRow(p.evidence, s, p.collector.data));
    FlushedTables(rules, p, flushed, s);
    SameCovered(p, flushed);
    if outcome.Committed? { AdvanceKeeps(rules, flushed); } else { GiveUpKeeps(rules, flushed); }
  }

  lemma FlushedTables(rules: Rules, p: Pipe, flushed: Pipe, s: string)
    requires CollectorOk(rules, p) && p.collector.Flushing? && s == p.collector.queue[0].event.session
    requires flushed == p || flushed == p.(evidence := UpsertRow(p.evidence, s, p.collector.data))
    ensures TablesOk(rules, flushed)
  {
    hide FoldTo, Covered, QueueOk;
    if s in p.evidence {
      var prior := p.evidence[s];
      FoldStart(rules, p.pg.rows, s, prior.lastEventId, p.progress[s].lastEventId);
      assert p.collector.data.(startTime := prior.startTime) == p.collector.data;
    }
  }

  // ---- The log grows ----------------------------------------------------------------------

  lemma BelowGrows(rows: seq<LogRow>, more: seq<LogRow>, last: nat)
    requires Ascending(more) && rows <= more && Ascending(rows)
    ensures Below(rows, last) < |rows| ==> Below(more, last) == Below(rows, last)
    ensures 0 < Below(rows, last) && rows[Below(rows, last) - 1].id == last ==> Below(more, last) == Below(rows, last)
  {
    hide Below;
    BelowSplits(rows, last);
    BelowSplits(more, last);
    var n, m := Below(rows, last), Below(more, last);
    if n < |rows| {
      assert more[n] == rows[n];
      assert m < |rows| ==> more[m] == rows[m];
    } else if 0 < n && rows[n - 1].id == last {
      assert more[n - 1] == rows[n - 1];
      assert n < |more| ==> more[n - 1].id < more[n].id;
      assert m <= n;
    }
  }

  lemma FoldGrows(rules: Rules, rows: seq<LogRow>, more: seq<LogRow>, s: string, data: Evidence)
    requires Ascending(more) && rows <= more && Ascending(rows) && IsFold(rules, rows, s, data)
    ensures IsFold(rules, more, s, data)
  {
    hide FoldTo;
    var last := data.lastEventId;
    BelowGrows(rows, more, last);
    BelowSplits(rows, last);
    BelowSplits(more, last);
    var n := Below(rows, last);
    FoldPrefix(rules, rows, n, s, last);
    FoldPrefix(rules, more, n, s, last);
    assert more[..n] == rows[..n];
  }

  /** The cursor always points at a row of the log, or is zero. */
  ghost predicate CursorOk(p: Pipe)
  {
    p.lastId == 0 || (0 < Below(p.pg.rows, p.lastId) && p.pg.rows[Below(p.pg.rows, p.lastId) - 1].id == p.lastId)
  }

  lemma LogGrowthKeeps(rules: Rules, p: Pipe, p': Pipe)
    requires CollectorOk(rules, p) && CursorOk(p)
    requires p.pg.rows <= p'.pg.rows && Ascending(p'.pg.rows)
    requires p'.collector == p.collector && p'.lastId == p.lastId
    requires p'.progress == p.progress && p'.evidence == p.evidence
    ensures CollectorOk(rules, p') && CursorOk(p')
  {
    hide FoldTo, Below, TablesOk;
    var rows, more := p.pg.rows, p'.pg.rows;
    assert TablesOk(rules, p') by { GrownTables(rules, p, p'); }
    GrownCursor(p, p');
    GrownCovered(p, p');
    var from := Below(rows, p.lastId);
    assert rows[from..] <= more[from..];
    if p.collector.Saving? {
      GrownData(rules, p, p');
    }
  }

  lemma GrownData(rules: Rules, p: Pipe, p': Pipe)
    requires CollectorOk(rules, p) && p.collector.Saving?
    requires p.pg.rows <= p'.pg.rows && Ascending(p'.pg.rows)
    ensures var row := p.collector.queue[0];
            FoldTo(rules, p'.pg.rows, row.event.session, row.id) == Some(p.collector.data)
  {
    hide FoldTo, TablesOk, Covered;
    HeadRow(p);
    FoldGrows(rules, p.pg.rows, p'.pg.rows, p.collector.queue[0].event.session, p.collector.data);
  }

  lemma GrownTables(rules: Rules, p: Pipe, p': Pipe)
    requires TablesOk(rules, p) && Ascending(p.pg.rows)
    requires p.pg.rows <= p'.pg.rows && Ascending(p'.pg.rows)
    requires p'.progress == p.progress && p'.evidence == p.evidence
    ensures TablesOk(rules, p')
  {
    hide IsFold, Ascending;
    forall s <- p.progress ensures IsFold(rules, p'.pg.rows, s, p'.progress[s]) {
      FoldGrows(rules, p.pg.rows, p'.pg.rows, s, p.progress[s]);
    }
    forall s <- p.evidence ensures IsFold(rules, p'.pg.rows, s, p'.evidence[s]) {
      FoldGrows(rules, p.pg.rows, p'.pg.rows, s, p.evidence[s]);
    }
  }

  lemma BelowZero(rows: seq<LogRow>)
    requires Ascending(rows)
    ensures Below(rows, 0) == 0
  {
    BelowSplits(rows, 0);
    assert |rows| > 0 ==> rows[0].id >= 1;
  }

  lemma GrownCursor(p: Pipe, p': Pipe)
    requires CursorOk(p) && Ascending(p.pg.rows) && p.pg.rows <= p'.pg.rows && Ascending(p'.pg.rows) && p'.lastId == p.lastId
    ensures Below(p'.pg.rows, p'.lastId) == Below(p.pg.rows, p.lastId) && CursorOk(p')
  {
    if p.lastId == 0 {
      BelowZero(p.pg.rows);
      BelowZero(p'.pg.rows);
    } else {
      BelowGrows(p.pg.rows, p'.pg.rows, p.lastId);
    }
  }

  lemma GrownCovered(p: Pipe, p': Pipe)
    requires Covered(p) && CursorOk(p) && Ascending(p.pg.rows) && p.pg.rows <= p'.pg.rows && Ascending(p'.pg.rows)
    requires p'.lastId == p.lastId && p'.progress == p.progress
    ensures Covered(p')
  {
    GrownCursor(p, p');
    BelowSplits(p'.pg.rows, p.lastId);
    forall k | 0 <= k < |p'.pg.rows| && p'.pg.rows[k].id <= p'.lastId ensures p'.pg.rows[k] == p.pg.rows[k] && k < |p.pg.rows| {
      assert k < Below(p.pg.rows, p.lastId);
    }
  }

  // ---- All steps -------------------------------------------------------------------------

  lemma AdvanceCursor(p: Pipe)
    requires Ascending(p.pg.rows) && QueueOk(p) && p.collector.queue != []
    ensures CursorOk(Advance(p))
  {
    HeadRow(p);
  }

  lemma CursorStep(rules: Rules, p: Pipe, a: Action)
    requires CollectorOk(rules, p) && CursorOk(p) && Enabled(p, a)
    requires a.Load? || a.Save? || a.Flush?
    ensures CursorOk(Next(rules, p, a))
  {
    hide Handle, FoldTo, TablesOk, Covered, Below, Upsert, UpsertRow, Default;
    AdvanceCursor(p);
  }

  lemma FetchKeeps(rules: Rules, p: Pipe)
    requires CollectorOk(rules, p)
    ensures CollectorOk(rules, p.(collector := Ready(NewRows(p.pg.rows, p.lastId))))
  {
    hide TablesOk, Below;
    SameTables(rules, p, p.(collector := Ready(NewRows(p.pg.rows, p.lastId))));
    var from := Below(p.pg.rows, p.lastId);
    if |p.pg.rows| - from > POLL_BATCH {
      assert p.pg.rows[from..from + POLL_BATCH] == p.pg.rows[from..][..POLL_BATCH];
    }
  }

  lemma RestartKeeps(rules: Rules, p: Pipe)
    requires CollectorOk(rules, p)
    ensures CollectorOk(rules, p.(lastId := 0, collector := Ready([])))
  {
    hide TablesOk;
    SameTables(rules, p, p.(lastId := 0, collector := Ready([])));
  }

  lemma StepKeepsCollector(rules: Rules, p: Pipe, a: Action)
    requires Delivered(p) && WorkerOk(p) && CollectorOk(rules, p) && CursorOk(p) && Enabled(p, a)
    ensures CollectorOk(rules, Next(rules, p, a)) && CursorOk(Next(rules, p, a))
  {
    hide CollectorOk, CursorOk, Delivered, WorkerOk, LoadStep, Upsert, UpsertRow, InsertBatch;
    StepKeepsDelivered(rules, p, a);
    var p' := Next(rules, p, a);
    assert Ascending(p'.pg.rows) by { DeliveredAscends(p'); }
    match a
    case LogOperation(_, _, _) => LogGrowthKeeps(rules, p, p');
    case Poll => LogGrowthKeeps(rules, p, p');
    case Deliver(_, _) => LogGrowthKeeps(rules, p, p');
    case Acknowledge(_) => LogGrowthKeeps(rules, p, p');
    case WorkerCrash => LogGrowthKeeps(rules, p, p');
    case Fetch =>
      FetchKeeps(rules, p);
      SameCursor(p, p');
    case Load(ok) =>
      CursorStep(rules, p, a);
      if ok || p.collector.queue[0].event.session == "" { LoadKeeps(rules, p); } else { GiveUpFrom(rules, p); }
    case Save(outcome) =>
      CursorStep(rules, p, a);
      SaveKeeps(rules, p, outcome);
    case Flush(outcome) =>
      CursorStep(rules, p, a);
      FlushKeeps(rules, p, outcome);
    case CollectorRestart =>
      RestartKeeps(rules, p);
      ZeroCursor(p');
  }

  lemma GiveUpFrom(rules: Rules, p: Pipe)
    requires CollectorOk(rules, p)
    ensures CollectorOk(rules, GiveUp(p))
  {
    hide TablesOk, Covered;
    GiveUpKeeps(rules, p);
  }

  lemma ZeroCursor(p: Pipe)
    requires p.lastId == 0
    ensures CursorOk(p)
  {
  }

  lemma SameCursor(p: Pipe, p': Pipe)
    requires CursorOk(p) && p'.pg == p.pg && p'.lastId == p.lastId
    ensures CursorOk(p')
  {
  }

  lemma DeliveredAscends(p: Pipe)
    requires Delivered(p)
    ensures Ascending(p.pg.rows)
  {
    hide Ascending;
  }

  lemma InitialCollector(rules: Rules, p: Pipe)
    requires Initial(p)
    ensures CollectorOk(rules, p) && CursorOk(p)
  {
  }

  lemma {:induction false} RunKeepsCollector(rules: Rules, run: seq<Pipe>, actions: seq<Action>, t: nat)
    requires Run(rules, run, actions) && t < |run|
    ensures CollectorOk(rules, run[t]) && CursorOk(run[t])
    decreases t
  {
    hide Next, Delivered, WorkerOk, Enabled, CollectorOk, CursorOk, Initial;
    if t == 0 {
      InitialCollector(rules, run[0]);
    } else {
      RunKeepsCollector(rules, run, actions, t - 1);
      ExactlyOnceDelivery(rules, run, actions, t - 1);
      assert Steps(rules, run[t - 1], actions[t - 1], run[t]);
      StepKeepsCollector(rules, run[t - 1], actions[t - 1]);
    }
  }

  /** A fetch takes the next rows after the cursor in id order: all of them, or a thousand. */
  lemma FetchTakesNext(rows: seq<LogRow>, lastId: nat) returns (from: nat)
    requires Ascending(rows)
    ensures from <= |rows| && (forall k | 0 <= k < from :: rows[k].id <= lastId) && (forall k | from <= k < |rows| :: rows[k].id > lastId)
    ensures |NewRows(rows, lastId)| == (if |rows| - from <= 1000 then |rows| - from else 1000)
    ensures forall k | 0 <= k < |NewRows(rows, lastId)| :: NewRows(rows, lastId)[k] == rows[from + k]
  {
    from := Below(rows, lastId);
    BelowSplits(rows, lastId);
    hide Below;
  }
}
