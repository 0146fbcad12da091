/** Exactly-once delivery from the outbox into the audit log. */
module AuditDelivery {
  import opened AuditSpool
  import opened EvidenceFold
  import opened AuditPipeline

  /** How many admitted events have left the outbox. */
  function Gone(p: Pipe): int { |p.admitted| - |p.spool| }

  /** With A the admitted events: the log is A[..n] under ascending ids, the outbox is
      A[m..], and m <= n. */
  ghost predicate Delivered(p: Pipe)
  {
    && Distinct(p.admitted)
    && Ordered(p.spool) && |p.spool| <= p.limit
    && LogOf(p.pg, p.admitted)
    && |p.spool| <= |p.admitted| && Events(p.spool) == p.admitted[Gone(p)..]
    && Gone(p) <= |p.pg.rows|
  }

  ghost predicate WorkerOk(p: Pipe)
  {
    match p.worker
    case Idle => true
    case Loaded(batch) => batch <= Events(p.spool)
    case Acking(batch) => batch <= Events(p.spool) && Gone(p) + |batch| <= |p.pg.rows|
  }

  lemma HasIffDelivered(rows: seq<LogRow>, admitted: seq<AuditEvent>, k: nat)
    requires Distinct(admitted) && k < |admitted| && |rows| <= |admitted| && RowEvents(rows) == admitted[..|rows|]
    ensures Has(rows, admitted[k].eventId) <==> k < |rows|
  {
    assert forall j | 0 <= j < |rows| :: rows[j].event == RowEvents(rows)[j] == admitted[j];
    if k < |rows| { assert rows[k].event.eventId == admitted[k].eventId; }
  }

  /** The log is A[..n] under ascending ids the sequence has already passed. */
  ghost predicate LogOf(pg: Pg, admitted: seq<AuditEvent>)
  {
    && Ascending(pg.rows) && (forall k | 0 <= k < |pg.rows| :: pg.rows[k].id <= pg.serial)
    && |pg.rows| <= |admitted| && RowEvents(pg.rows) == admitted[..|pg.rows|]
  }

  lemma InsertOne(pg: Pg, admitted: seq<AuditEvent>, from: nat)
    requires Distinct(admitted) && LogOf(pg, admitted) && from < |admitted| && from <= |pg.rows|
    ensures var id := pg.serial + 1;
            var e := admitted[from];
            var rows := if Has(pg.rows, e.eventId) then pg.rows else pg.rows + [LogRow(id, e)];
            && LogOf(Pg(rows, id), admitted) && pg.rows <= rows
            && |rows| == (if from < |pg.rows| then |pg.rows| else from + 1)
  {
    HasIffDelivered(pg.rows, admitted, from);
    if from == |pg.rows| {
      var rows := pg.rows + [LogRow(pg.serial + 1, admitted[from])];
      assert RowEvents(rows) == RowEvents(pg.rows) + [admitted[from]];
    }
  }

  /** Inserting A[from..upto] into a log that is A[..n] with from <= n leaves A[..max(n, upto)]. */
  lemma {:induction false} InsertExtends(pg: Pg, admitted: seq<AuditEvent>, from: nat, upto: nat)
    requires Distinct(admitted) && from <= upto <= |admitted| && LogOf(pg, admitted) && from <= |pg.rows|
    ensures var pg' := InsertBatch(pg, admitted[from..upto]);
            && LogOf(pg', admitted) && pg.rows <= pg'.rows
            && |pg'.rows| == (if upto > |pg.rows| then upto else |pg.rows|)
    decreases upto - from
  {
    hide LogOf, Distinct, Has;
    if from < upto {
      var batch := admitted[from..upto];
      assert batch[0] == admitted[from] && batch[1..] == admitted[from + 1..upto];
      InsertOne(pg, admitted, from);
      var id := pg.serial + 1;
      var rows := if Has(pg.rows, batch[0].eventId) then pg.rows else pg.rows + [LogRow(id, batch[0])];
      InsertExtends(Pg(rows, id), admitted, from + 1, upto);
    } else {
      assert admitted[from..upto] == [];
    }
  }

  /** An aborted batch uses up ids, nothing else. */
  lemma BurntIds(pg: Pg, admitted: seq<AuditEvent>, burnt: nat)
    requires LogOf(pg, admitted)
    ensures LogOf(pg.(serial := pg.serial + burnt), admitted)
  {
  }

  lemma DeliverKeeps(rules: Rules, p: Pipe, outcome: Outcome, burnt: nat)
    requires Delivered(p) && WorkerOk(p) && Enabled(p, Deliver(outcome, burnt))
    ensures var p' := Next(rules, p, Deliver(outcome, burnt));
            Delivered(p') && WorkerOk(p') && p.pg.rows <= p'.pg.rows
  {
    hide InsertBatch, LogOf, Distinct, Ordered;
    var batch := p.worker.batch;
    var m := Gone(p);
    assert batch == p.admitted[m..m + |batch|];
    InsertExtends(p.pg, p.admitted, m, m + |batch|);
    BurntIds(p.pg, p.admitted, burnt);
  }

  lemma AcknowledgeKeeps(rules: Rules, p: Pipe, outcome: Outcome)
    requires Delivered(p) && WorkerOk(p) && Enabled(p, Acknowledge(outcome))
    ensures var p' := Next(rules, p, Acknowledge(outcome)); Delivered(p') && WorkerOk(p')
  {
    if !outcome.Aborted? {
      var n := |p.worker.batch|;
      assert |Events(p.spool)| == |p.spool|;
      assert p.worker.batch == Events(p.spool[..n]);
      assert Distinct(Events(p.spool)) by { SuffixDistinct(p.admitted, Gone(p)); }
      DeletePrefix(p.spool, n);
      assert Events(p.spool[n..]) == Events(p.spool)[n..];
      assert Ordered(p.spool[n..]);
    }
  }

  lemma SuffixDistinct(events: seq<AuditEvent>, from: nat)
    requires Distinct(events) && from <= |events|
    ensures Distinct(events[from..])
  {
  }

  lemma AppendKeeps(rules: Rules, p: Pipe, e: AuditEvent, size: nat, stored: bool)
    requires Delivered(p) && WorkerOk(p) && Enabled(p, LogOperation(e, size, stored))
    ensures var p' := Next(rules, p, LogOperation(e, size, stored));
            && Delivered(p') && WorkerOk(p')
            && (p'.admitted == p.admitted || p'.admitted == p.admitted + [e])
  {
    AppendOrdered(p.spool, p.limit, e, size, stored);
    var p' := Next(rules, p, LogOperation(e, size, stored));
    if p' != p && p'.spool != p.spool {
      assert Events(p'.spool) == Events(p.spool) + [e];
      assert p'.admitted[Gone(p')..] == p.admitted[Gone(p)..] + [e];
    }
  }

  lemma PollKeeps(rules: Rules, p: Pipe)
    requires Delivered(p) && WorkerOk(p) && Enabled(p, Poll)
    ensures var p' := Next(rules, p, Poll); Delivered(p') && WorkerOk(p')
  {
    if |p.spool| > DELIVERY_BATCH {
      assert Events(p.spool[..DELIVERY_BATCH]) == Events(p.spool)[..DELIVERY_BATCH];
    }
  }

  lemma StepKeepsDelivered(rules: Rules, p: Pipe, a: Action)
    requires Delivered(p) && WorkerOk(p) && Enabled(p, a)
    ensures var p' := Next(rules, p, a);
            && Delivered(p') && WorkerOk(p')
            && p.pg.rows <= p'.pg.rows && p.admitted <= p'.admitted
  {
    hide Handle, Delivered;
    match a
    case LogOperation(e, size, stored) => AppendKeeps(rules, p, e, size, stored);
    case Poll => PollKeeps(rules, p);
    case Deliver(outcome, burnt) => DeliverKeeps(rules, p, outcome, burnt);
    case Acknowledge(outcome) => AcknowledgeKeeps(rules, p, outcome);
    case _ => OtherStepKeeps(rules, p, a);
  }

  lemma OtherStepKeeps(rules: Rules, p: Pipe, a: Action)
    requires Delivered(p) && WorkerOk(p) && Enabled(p, a)
    requires !a.LogOperation? && !a.Poll? && !a.Deliver? && !a.Acknowledge?
    ensures var p' := Next(rules, p, a);
            && Delivered(p') && WorkerOk(p') && p'.pg == p.pg && p'.admitted == p.admitted
  {
    hide Delivered, WorkerOk;
    CollectorFrame(rules, p, a);
    SameDelivery(p, Next(rules, p, a));
  }

  /** The collector's steps and a worker crash leave outbox and log alone. */
  lemma CollectorFrame(rules: Rules, p: Pipe, a: Action)
    requires Enabled(p, a) && !a.LogOperation? && !a.Poll? && !a.Deliver? && !a.Acknowledge?
    ensures var p' := Next(rules, p, a);
            && p'.pg == p.pg && p'.admitted == p.admitted && p'.spool == p.spool && p'.limit == p.limit
            && (p'.worker == p.worker || p'.worker == Idle)
  {
    hide Handle, Below, Default;
  }

  lemma SameDelivery(p: Pipe, p': Pipe)
    requires Delivered(p) && WorkerOk(p)
    requires p'.pg == p.pg && p'.admitted == p.admitted && p'.spool == p.spool && p'.limit == p.limit
    requires p'.worker == p.worker || p'.worker == Idle
    ensures Delivered(p') && WorkerOk(p')
  {
    hide LogOf, Ordered, Distinct;
  }

  /** In every reachable state the log is A[..n] and the outbox A[m..] with m <= n, the
      outbox within its limit: nothing is lost, repeated or reordered. */
  lemma {:induction false} ExactlyOnceDelivery(rules: Rules, run: seq<Pipe>, actions: seq<Action>, t: nat)
    requires Run(rules, run, actions) && t < |run|
    ensures Delivered(run[t]) && WorkerOk(run[t])
    decreases t
  {
    hide Next, Delivered, WorkerOk, Enabled;
    if t == 0 {
      InitialDelivered(run[0]);
    } else {
      ExactlyOnceDelivery(rules, run, actions, t - 1);
      assert Steps(rules, run[t - 1], actions[t - 1], run[t]);
      StepKeepsDelivered(rules, run[t - 1], actions[t - 1]);
    }
  }

  lemma InitialDelivered(p: Pipe)
    requires Initial(p)
    ensures Delivered(p) && WorkerOk(p)
  {
  }
}
