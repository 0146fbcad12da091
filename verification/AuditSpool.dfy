/** The durable SQLite outbox that every audited operation goes through first. */
module AuditSpool {

  type EventId = string

  const MAX_EVENT_BYTES := 65536

  /** One admitted audit event: its UUID and what log_operation was given. */
  datatype AuditEvent = AuditEvent(
    eventId: EventId,
    session: string,
    timestamp: int,
    operation: string,
    path: string,
    metadata: map<string, string>)

  /** A row of the `outbox` table; rowids are reused once the table is empty. */
  datatype Row = Row(sequence: nat, event: AuditEvent)

  function Events(rows: seq<Row>): seq<AuditEvent>
  {
    seq(|rows|, k requires 0 <= k < |rows| => rows[k].event)
  }

  /** Rowids ascend in insertion order, so ORDER BY sequence is oldest first. */
  ghost predicate Ordered(rows: seq<Row>)
  {
    && (forall j, k | 0 <= j < k < |rows| :: rows[j].sequence < rows[k].sequence)
    && (forall k | 0 <= k < |rows| :: rows[k].sequence >= 1)
  }

  /** SQLite's rowid for the next insert: one more than the largest in the table. */
  function NextSequence(rows: seq<Row>): nat
  {
    if rows == [] then 1 else rows[|rows| - 1].sequence + 1
  }

  datatype Admission = Admitted | TooLarge | Full | StorageFull

  /** `stored` says whether SQLite finds pages for the row; its cap is 65536 of them. */
  function Append(rows: seq<Row>, limit: nat, e: AuditEvent, size: nat, stored: bool): (seq<Row>, Admission)
  {
    if size > MAX_EVENT_BYTES then (rows, TooLarge)
    else if |rows| >= limit then (rows, Full)
    else if !stored then (rows, StorageFull)
    else (rows + [Row(NextSequence(rows), e)], Admitted)
  }

  function Pending(rows: seq<Row>, limit: nat): seq<AuditEvent>
  {
    Events(if |rows| <= limit then rows else rows[..limit])
  }

  /** `DELETE FROM outbox WHERE event_id = ?` */
  function Delete(rows: seq<Row>, id: EventId): seq<Row>
    decreases |rows|
  {
    if rows == [] then []
    else if rows[0].event.eventId == id then Delete(rows[1..], id)
    else [rows[0]] + Delete(rows[1..], id)
  }

  function DeleteAll(rows: seq<Row>, ids: seq<EventId>): seq<Row>
    decreases |ids|
  {
    if ids == [] then rows else DeleteAll(Delete(rows, ids[0]), ids[1..])
  }

  function Ids(events: seq<AuditEvent>): seq<EventId>
  {
    seq(|events|, k requires 0 <= k < |events| => events[k].eventId)
  }

  ghost predicate Distinct(events: seq<AuditEvent>)
  {
    forall j, k | 0 <= j < k < |events| :: events[j].eventId != events[k].eventId
  }

  lemma {:induction false} DeleteAbsent(rows: seq<Row>, id: EventId)
    requires forall k | 0 <= k < |rows| :: rows[k].event.eventId != id
    ensures Delete(rows, id) == rows
    decreases |rows|
  {
    if rows != [] { DeleteAbsent(rows[1..], id); }
  }

  /** Acknowledging the oldest events removes exactly them and keeps the rest as is. */
  lemma {:induction false} DeletePrefix(rows: seq<Row>, n: nat)
    requires n <= |rows| && Distinct(Events(rows))
    ensures DeleteAll(rows, Ids(Events(rows[..n]))) == rows[n..]
    decreases n
  {
    if n > 0 {
      var ids := Ids(Events(rows[..n]));
      assert ids[0] == rows[0].event.eventId;
      forall k | 0 <= k < |rows| - 1 ensures rows[1..][k].event.eventId != ids[0] {
        assert Events(rows)[k + 1] == rows[1..][k].event && Events(rows)[0] == rows[0].event;
      }
      DeleteAbsent(rows[1..], ids[0]);
      assert Delete(rows, ids[0]) == rows[1..];
      assert ids[1..] == Ids(Events(rows[1..][..n - 1]));
      forall j, k | 0 <= j < k < |rows| - 1
        ensures Events(rows[1..])[j].eventId != Events(rows[1..])[k].eventId
      {
        assert Events(rows[1..])[j] == Events(rows)[j + 1] && Events(rows[1..])[k] == Events(rows)[k + 1];
      }
      DeletePrefix(rows[1..], n - 1);
    } else {
      assert rows[..0] == [];
    }
  }

  lemma AppendOrdered(rows: seq<Row>, limit: nat, e: AuditEvent, size: nat, stored: bool)
    requires Ordered(rows)
    ensures Ordered(Append(rows, limit, e, size, stored).0)
  {
  }

  /** The spool object: one connection, every method under its lock. */
  class Spool {
    const limit: nat
    var rows: seq<Row>

    ghost predicate Valid()
      reads this
    {
      Ordered(rows) && |rows| <= limit
    }

    constructor (maxEvents: nat)
      ensures Valid() && limit == maxEvents && rows == []
    {
      limit, rows := maxEvents, [];
    }

    method AppendEvent(e: AuditEvent, size: nat, stored: bool) returns (result: Admission)
      requires Valid()
      modifies this
      ensures Valid() && (rows, result) == Append(old(rows), limit, e, size, stored)
      ensures result ==
              if size > 65536 then TooLarge else if |old(rows)| >= limit then Full else if !stored then StorageFull else Admitted
      ensures Events(rows) == if result.Admitted? then Events(old(rows)) + [e] else Events(old(rows))
      ensures !result.Admitted? ==> rows == old(rows)
      ensures result.Admitted? ==>
                rows == old(rows) + [Row(if old(rows) == [] then 1 else old(rows)[|old(rows)| - 1].sequence + 1, e)]
    {
      if size > MAX_EVENT_BYTES { return TooLarge; }
      if |rows| >= limit { return Full; }
      if !stored { return StorageFull; }
      AppendOrdered(rows, limit, e, size, stored);
      rows := rows + [Row(NextSequence(rows), e)];
      return Admitted;
    }

    method PendingEvents(batch: nat) returns (events: seq<AuditEvent>)
      requires Valid()
      ensures events == Pending(rows, batch)
      ensures |events| == (if |rows| <= batch then |rows| else batch)
      ensures forall k | 0 <= k < |events| :: events[k] == rows[k].event
    {
      events := [];
      var k := 0;
      while k < batch && k < |rows|
        invariant 0 <= k <= |rows| && k <= batch
        invariant events == Events(rows)[..k]
      {
        events := events + [rows[k].event];
        k := k + 1;
      }
      assert k < |rows| ==> Events(rows[..k]) == Events(rows)[..k];
    }

    method Acknowledge(ids: seq<EventId>)
      requires Valid()
      modifies this
      ensures Valid() && rows == DeleteAll(old(rows), ids)
    {
      var k := 0;
      while k < |ids|
        invariant 0 <= k <= |ids| && Valid()
        invariant DeleteAll(old(rows), ids) == DeleteAll(rows, ids[k..])
      {
        assert ids[k..][1..] == ids[k + 1..];
        DeleteOrdered(rows, ids[k]);
        rows := Delete(rows, ids[k]);
        k := k + 1;
      }
    }
  }

  lemma {:induction false} DeleteOrdered(rows: seq<Row>, id: EventId)
    requires Ordered(rows)
    ensures Ordered(Delete(rows, id)) && |Delete(rows, id)| <= |rows|
    ensures forall r :: r in Delete(rows, id) ==> r in rows
    decreases |rows|
  {
    if rows != [] {
      assert Ordered(rows[1..]);
      DeleteOrdered(rows[1..], id);
      var rest := Delete(rows[1..], id);
      forall k | 0 <= k < |rest| ensures rows[0].sequence < rest[k].sequence {
        assert rest[k] in rows[1..];
      }
    }
  }
}
