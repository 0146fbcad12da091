/** The report in the words of its input: operation names, sessions, command ids and the
    two identifier fields of the records themselves. */
module ReportMeaning {
  import opened Wrappers
  import opened Report
  import opened ReportTheorems

  predicate IsCommand(e: Event) { e.operation == "ssh_command" }

  predicate IsResult(e: Event) { e.operation == "ssh_command_result" }

  predicate IsFile(e: Event)
  {
    e.operation == "read" || e.operation == "write" || e.operation == "create" || e.operation == "unlink"
  }

  /** Session and command id are both given and not empty. */
  predicate NamesCommand(e: Event)
  {
    && e.session.Some? && e.session.value != ""
    && e.metadata.commandId.Some? && e.metadata.commandId.value != ""
  }

  predicate Together(e: Event, f: Event)
  {
    e.session == f.session && e.metadata.commandId == f.metadata.commandId
  }

  /** The event id if there is a nonempty one, else the database id. */
  predicate HasId(e: Event, id: Id)
  {
    if e.eventId.Some? && e.eventId.value != "" then e.eventId.value == id else e.id == Some(id)
  }

  /** An absent field reads "unknown", a null one null. */
  predicate Reads(field: Field, shown: Label)
  {
    && (field.Missing? ==> shown == Some("unknown"))
    && (field.Null? ==> shown == None)
    && (field.Text? ==> shown == Some(field.text))
  }

  /** Some command of the input is the event's. */
  ghost predicate HasCommand(events: seq<Event>, e: Event)
  {
    exists s <- events :: IsCommand(s) && NamesCommand(s) && Together(s, e)
  }

  predicate Before(a: string, b: string)
  {
    exists n: nat | n <= |a| && n < |b| :: a[..n] == b[..n] && (n == |a| || (n < |a| && a[n] < b[n]))
  }

  /** By session, then by command id. */
  predicate Earlier(e: Event, f: Event)
    requires NamesCommand(e) && NamesCommand(f)
  {
    || Before(e.session.value, f.session.value)
    || (e.session == f.session && Before(e.metadata.commandId.value, f.metadata.commandId.value))
  }

  // ---- The model's functions in those words ---------------------------------------------------

  lemma KindsByName(x: Entry)
    ensures KindOf(x) == Submission <==> IsCommand(x.event)
    ensures KindOf(x) == Completion <==> IsResult(x.event)
    ensures KindOf(x) == FileEvent <==> IsFile(x.event)
  {
  }

  lemma KeysByFields(x: Entry, y: Entry)
    ensures KeyOf(x) == KeyOf(y) <==> Together(x.event, y.event)
    ensures Full(KeyOf(x)) <==> NamesCommand(x.event)
  {
  }

  lemma IdsByFields(events: seq<Event>, x: Entry)
    requires Identified(events)
    ensures x in Entries(events) <==> x.event in events && HasId(x.event, x.id)
    ensures forall id | x in Entries(events) && HasId(x.event, id) :: id == x.id
  {
  }

  lemma EntryOf(events: seq<Event>, e: Event) returns (x: Entry)
    requires Identified(events) && e in events
    ensures x in Entries(events) && x.event == e && HasId(e, x.id)
  {
    x := Entry(Identity(e).value, e);
    IdsByFields(events, x);
  }

  lemma LabelsByField(field: Field, shown: Label)
    ensures OrUnknown(field) == shown <==> Reads(field, shown)
  {
  }

  lemma {:induction false} LexLessIsBefore(a: string, b: string)
    requires LexLess(a, b)
    ensures Before(a, b)
    decreases |a|
  {
    if a == "" || a[0] < b[0] {
      assert a[..0] == b[..0];
    } else {
      LexLessIsBefore(a[1..], b[1..]);
      var n: nat :| n <= |a[1..]| && n < |b[1..]| && a[1..][..n] == b[1..][..n]
                    && (n == |a[1..]| || (n < |a[1..]| && a[1..][n] < b[1..][n]));
      assert a[..n + 1] == [a[0]] + a[1..][..n] && b[..n + 1] == [b[0]] + b[1..][..n];
    }
  }

  lemma KeyLessIsEarlier(x: Entry, y: Entry)
    requires NamesCommand(x.event) && NamesCommand(y.event) && KeyLess(KeyOf(x), KeyOf(y))
    ensures Earlier(x.event, y.event)
  {
    var e, f := x.event, y.event;
    if LexLess(e.session.value, f.session.value) {
      LexLessIsBefore(e.session.value, f.session.value);
    } else {
      LexLessIsBefore(e.metadata.commandId.value, f.metadata.commandId.value);
    }
  }

  lemma HasCommandIsKey(events: seq<Event>, x: Entry)
    requires Identified(events)
    ensures KeyOf(x) in SubmissionKeys(Entries(events)) <==> HasCommand(events, x.event)
  {
    hide Identified, Entries, KindOf, KeyOf, Full, IsCommand, NamesCommand, Together, HasId;
    var u := Entries(events);
    if HasCommand(events, x.event) {
      var s :| s in events && IsCommand(s) && NamesCommand(s) && Together(s, x.event);
      var y := EntryOf(events, s);
      KindsByName(y);
      KeysByFields(y, x);
      assert Joined(y);
    }
    if KeyOf(x) in SubmissionKeys(u) {
      var y :| y in u && Joined(y) && KeyOf(y) == KeyOf(x);
      KindsByName(y);
      KeysByFields(y, x);
      IdsByFields(events, y);
      assert y.event in events;
    }
  }

  // ---- Left-over lists ----------------------------------------------------------------------------

  lemma LegacyInWords(sorted: Sorter, r: Report, events: seq<Event>, id: Id)
    requires Identified(events) && Reconciles(sorted, r, events)
    ensures id in r.legacy <==> exists e <- events :: IsCommand(e) && !NamesCommand(e) && HasId(e, id)
  {
    hide Identified, Entries, KindOf, KeyOf, Full, IsCommand, NamesCommand, HasId, Describes, Unmatched, SubmissionKeys, OutcomesOf;
    var part := set x | x in Entries(events) && KindOf(x) == Submission && !Full(KeyOf(x));
    assert id in r.legacy <==> id in Ids(part);
    if id in r.legacy {
      var x :| x in part && x.id == id;
      KindsByName(x);
      KeysByFields(x, x);
      IdsByFields(events, x);
      assert x.event in events;
    }
    if e :| e in events && IsCommand(e) && !NamesCommand(e) && HasId(e, id) {
      var x := EntryOf(events, e);
      KindsByName(x);
      KeysByFields(x, x);
      IdsByFields(events, x);
      assert x in part;
    }
  }

  /** Entries of a kind without a command, by id. */
  lemma UnmatchedInWords(events: seq<Event>, kind: Kind, id: Id)
    requires Identified(events)
    ensures id in Ids(Unmatched(Entries(events), kind)) <==>
            exists e <- events :: OfKind(e, kind) && !HasCommand(events, e) && HasId(e, id)
  {
    hide Identified, Entries, KindOf, KeyOf, HasCommand, OfKind, HasId, SubmissionKeys;
    var u := Entries(events);
    if id in Ids(Unmatched(u, kind)) {
      var x :| x in Unmatched(u, kind) && x.id == id;
      OfKindIsKind(x, kind);
      HasCommandIsKey(events, x);
      IdsByFields(events, x);
      assert x.event in events;
    }
    if e :| e in events && OfKind(e, kind) && !HasCommand(events, e) && HasId(e, id) {
      var x := EntryOf(events, e);
      OfKindIsKind(x, kind);
      HasCommandIsKey(events, x);
      IdsByFields(events, x);
      assert x in Unmatched(u, kind);
    }
  }

  predicate OfKind(e: Event, kind: Kind)
  {
    match kind
    case Submission => IsCommand(e)
    case Completion => IsResult(e)
    case FileEvent => IsFile(e)
    case Other => !IsCommand(e) && !IsResult(e) && !IsFile(e)
  }

  lemma OfKindIsKind(x: Entry, kind: Kind)
    ensures KindOf(x) == kind <==> OfKind(x.event, kind)
  {
  }

  /** Which records the three left-over lists name. */
  lemma LeftOversInWords(sorted: Sorter, r: Report, events: seq<Event>, id: Id)
    requires Identified(events) && Reconciles(sorted, r, events)
    ensures id in r.legacy <==> exists e <- events :: IsCommand(e) && !NamesCommand(e) && HasId(e, id)
    ensures id in r.unmatchedResults <==> exists e <- events :: IsResult(e) && !HasCommand(events, e) && HasId(e, id)
    ensures id in r.unmatchedFiles <==> exists e <- events :: IsFile(e) && !HasCommand(events, e) && HasId(e, id)
  {
    hide Identified, Entries, IsCommand, IsResult, IsFile, NamesCommand, HasCommand, HasId, Describes, Unmatched, SubmissionKeys, OutcomesOf;
    LegacyInWords(sorted, r, events, id);
    UnmatchedInWords(events, Completion, id);
    UnmatchedInWords(events, FileEvent, id);
  }

  // ---- Commands -------------------------------------------------------------------------------------

  /** A row of the report, for the submission `s` in its input. */
  ghost predicate RowFor(c: CommandRecord, events: seq<Event>, s: Event)
  {
    && s in events && IsCommand(s) && NamesCommand(s) && HasId(s, c.submission.id)
    && Reads(s.metadata.origin, c.origin)
    && (forall id :: id in c.resultIds <==> exists e <- events :: IsResult(e) && Together(e, s) && HasId(e, id))
    && (forall x: Entry :: x in c.fileEvents <==> x.event in events && IsFile(x.event) && Together(x.event, s) && HasId(x.event, x.id))
    && (c.conflicting <==> |c.resultIds| > 1)
    && (|c.resultIds| != 1 ==> c.outcome == Some("unknown"))
    && (|c.resultIds| == 1 ==> forall e <- events | IsResult(e) && Together(e, s) :: Reads(e.metadata.outcome, c.outcome))
  }

  lemma OfInWords(events: seq<Event>, kind: Kind, s: Entry, x: Entry)
    requires Identified(events)
    ensures x in Of(Entries(events), kind, KeyOf(s)) <==>
            x.event in events && OfKind(x.event, kind) && Together(x.event, s.event) && HasId(x.event, x.id)
  {
    hide Identified, Entries, KindOf, KeyOf, OfKind, HasId, Together;
    OfKindIsKind(x, kind);
    KeysByFields(x, s);
    IdsByFields(events, x);
  }

  lemma IdsInWords(events: seq<Event>, kind: Kind, s: Entry, id: Id)
    requires Identified(events)
    ensures id in Ids(Of(Entries(events), kind, KeyOf(s))) <==>
            exists e <- events :: OfKind(e, kind) && Together(e, s.event) && HasId(e, id)
  {
    hide Identified, Entries, KeyOf, OfKind, HasId, Together, Of;
    if id in Ids(Of(Entries(events), kind, KeyOf(s))) {
      var x :| x in Of(Entries(events), kind, KeyOf(s)) && x.id == id;
      OfInWords(events, kind, s, x);
      assert x.event in events;
    }
    if e :| e in events && OfKind(e, kind) && Together(e, s.event) && HasId(e, id) {
      var x := Entry(id, e);
      OfInWords(events, kind, s, x);
      assert x in Of(Entries(events), kind, KeyOf(s));
    }
  }

  lemma ResultCount(c: CommandRecord, u: set<Entry>)
    requires Lists(c.resultIds, Ids(Of(u, Completion, c.key))) && DistinctIn(u)
    ensures |c.resultIds| == |Of(u, Completion, c.key)|
  {
    ListLength(c.resultIds, Ids(Of(u, Completion, c.key)));
    IdsCount(Of(u, Completion, c.key));
  }

  ghost predicate DistinctIn(u: set<Entry>) { forall x <- u, y <- u | x.id == y.id :: x == y }

  lemma {:induction false} IdsCount(u: set<Entry>)
    requires DistinctIn(u)
    ensures |Ids(u)| == |u|
    decreases |u|
  {
    if u != {} {
      var x :| x in u;
      IdsCount(u - {x});
      assert Ids(u) == Ids(u - {x}) + {x.id};
    }
  }

  lemma EntriesAreDistinct(events: seq<Event>)
    requires Identified(events)
    ensures DistinctIn(Entries(events))
  {
    hide Identity;
  }

  /** Every row describes its submission by exactly the events that name the same command. */
  lemma RowInWords(c: CommandRecord, events: seq<Event>)
    requires Identified(events) && Describes(c, Entries(events))
    ensures RowFor(c, events, c.submission.event)
  {
    var u, s := Entries(events), c.submission;
    hide Identified, Entries, KindOf, KeyOf, Full, IsCommand, IsResult, IsFile, NamesCommand, HasId, Together, Of, OrUnknown, Reads, Ids, Lists;
    assert c.key == KeyOf(s);
    EntriesAreDistinct(events);
    ResultCount(c, u);
    KindsByName(s);
    KeysByFields(s, s);
    IdsByFields(events, s);
    LabelsByField(s.event.metadata.origin, c.origin);
    InLists(c.resultIds, Ids(Of(u, Completion, c.key)));
    forall id ensures id in c.resultIds <==> exists e <- events :: IsResult(e) && Together(e, s.event) && HasId(e, id) {
      IdsInWords(events, Completion, s, id);
    }
    InLists(c.fileEvents, Of(u, FileEvent, c.key));
    forall x: Entry
      ensures x in c.fileEvents <==>
              x.event in events && IsFile(x.event) && Together(x.event, s.event) && HasId(x.event, x.id)
    {
      OfInWords(events, FileEvent, s, x);
    }
    forall e <- events | |c.resultIds| == 1 && IsResult(e) && Together(e, s.event) ensures Reads(e.metadata.outcome, c.outcome) {
      var x := EntryOf(events, e);
      OfInWords(events, Completion, s, x);
      LabelsByField(e.metadata.outcome, c.outcome);
    }
  }

  lemma InLists<T(!new)>(s: seq<T>, elements: set<T>)
    requires Lists(s, elements)
    ensures forall x: T :: x in s <==> x in elements
  {
  }

  predicate RowsAscend(r: Report, i: int, j: int)
    requires 0 <= i < |r.commands| && 0 <= j < |r.commands|
  {
    var e, f := r.commands[i].submission.event, r.commands[j].submission.event;
    NamesCommand(e) && NamesCommand(f) && Earlier(e, f)
  }

  /** Some row is for the submission. */
  predicate HasRow(r: Report, e: Event)
  {
    exists i | 0 <= i < |r.commands| :: r.commands[i].submission.event == e
  }

  /** The rows are those of the input's commands, each command once, in ascending order of
      session and command id. */
  lemma RowsInWords(sorted: Sorter, r: Report, events: seq<Event>)
    requires IsSort(sorted) && Identified(events) && OneSubmissionPerKey(Entries(events)) && Reconciles(sorted, r, events)
    ensures forall i | 0 <= i < |r.commands| :: RowFor(r.commands[i], events, r.commands[i].submission.event)
    ensures forall i, j | 0 <= i < j < |r.commands| :: RowsAscend(r, i, j)
    ensures forall e <- events | IsCommand(e) && NamesCommand(e) :: HasRow(r, e)
  {
    var u, keys := Entries(events), KeysOf(r.commands);
    hide Identified, Entries, KindOf, KeyOf, Full, IsCommand, NamesCommand, HasId, Together, RowFor, Describes, KeyLess, IsSort, OutcomesOf, Unmatched, Ids, Earlier;
    forall i | 0 <= i < |r.commands| ensures RowFor(r.commands[i], events, r.commands[i].submission.event) {
      RowInWords(r.commands[i], events);
    }
    AllKeysFull(u);
    SortMeans(sorted, SubmissionKeys(u));
    forall i, j | 0 <= i < j < |r.commands| ensures RowsAscend(r, i, j) {
      RowOrder(r, u, i, j);
    }
    forall e <- events | IsCommand(e) && NamesCommand(e) ensures HasRow(r, e) {
      RowExists(r, events, e);
    }
  }

  lemma AllKeysFull(u: set<Entry>)
    ensures AllFull(SubmissionKeys(u))
  {
  }

  lemma SortMeans(sorted: Sorter, keys: set<Key>)
    requires IsSort(sorted) && AllFull(keys)
    ensures Lists(sorted(keys), keys) && Ascending(sorted(keys))
  {
  }

  lemma RowOrder(r: Report, u: set<Entry>, i: int, j: int)
    requires 0 <= i < j < |r.commands| && Ascending(KeysOf(r.commands))
    requires Describes(r.commands[i], u) && Describes(r.commands[j], u)
    ensures RowsAscend(r, i, j)
  {
    var keys, x, y := KeysOf(r.commands), r.commands[i].submission, r.commands[j].submission;
    hide KeyLess, KeyOf, Full, Earlier, NamesCommand, Of, Ids, OrUnknown;
    assert KeyLess(keys[i], keys[j]);
    KeysByFields(x, x);
    KeysByFields(y, y);
    KeyLessIsEarlier(x, y);
  }

  lemma RowExists(r: Report, events: seq<Event>, e: Event)
    requires Identified(events) && OneSubmissionPerKey(Entries(events))
    requires Lists(KeysOf(r.commands), SubmissionKeys(Entries(events)))
    requires forall i | 0 <= i < |r.commands| :: Describes(r.commands[i], Entries(events))
    requires e in events && IsCommand(e) && NamesCommand(e)
    ensures HasRow(r, e)
  {
    var u, keys := Entries(events), KeysOf(r.commands);
    hide Identified, Entries, KindOf, KeyOf, Full, IsCommand, NamesCommand, HasId, Of, Ids, OrUnknown;
    var x := EntryOf(events, e);
    KindsByName(x);
    KeysByFields(x, x);
    assert Joined(x) && KeyOf(x) in SubmissionKeys(u);
    assert KeyOf(x) in keys;
    var i :| 0 <= i < |keys| && keys[i] == KeyOf(x);
    assert Describes(r.commands[i], u);
    assert r.commands[i].submission == x;
  }

  // ---- Counts ----------------------------------------------------------------------------------------

  lemma {:induction false} SameSize(a: set<Entry>, b: set<Event>)
    requires forall x <- a :: x.event in b
    requires forall e <- b :: exists x <- a :: x.event == e
    requires forall x <- a, y <- a | x.event == y.event :: x == y
    ensures |a| == |b|
    decreases |a|
  {
    if a != {} {
      var x :| x in a;
      forall e <- b - {x.event} ensures exists y <- a - {x} :: y.event == e {
        var y :| y in a && y.event == e;
        assert y in a - {x};
      }
      SameSize(a - {x}, b - {x.event});
    }
  }

  /** Distinct records, repeats, and submissions by origin. */
  lemma CountsInWords(sorted: Sorter, r: Report, events: seq<Event>, o: Label)
    requires Identified(events) && Reconciles(sorted, r, events)
    ensures r.unique == |set e | e in events|
    ensures r.unique + r.duplicates == |events|
    ensures r.origins[o] == |set e | e in events && IsCommand(e) && Reads(e.metadata.origin, o)|
  {
    hide Identified, Entries, KindOf, IsCommand, Reads, HasId, OrUnknown, Describes, Unmatched, SubmissionKeys, Ids, OutcomesOf;
    var u := Entries(events);
    forall x: Entry ensures x in u ==> x.event in events && HasId(x.event, x.id) { IdsByFields(events, x); }
    EntryPerEvent(events);
    SameSize(u, set e | e in events);
    var part := set x | x in u && KindOf(x) == Submission && OriginOf(x) == o;
    var origin := set e | e in events && IsCommand(e) && Reads(e.metadata.origin, o);
    forall x <- u ensures x in part <==> x.event in origin {
      KindsByName(x);
      LabelsByField(x.event.metadata.origin, o);
    }
    SameSize(part, origin);
  }

  lemma EntryPerEvent(events: seq<Event>)
    requires Identified(events)
    ensures forall e <- events :: exists x <- Entries(events) :: x.event == e
    ensures forall x <- Entries(events), y <- Entries(events) | x.event == y.event :: x == y
  {
    hide Identity, HasId;
    forall e <- events ensures exists x <- Entries(events) :: x.event == e { var x := EntryOf(events, e); }
  }
}
