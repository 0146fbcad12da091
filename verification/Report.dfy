/** Reconciliation of an audit snapshot: deduplicate, join results and file events to
    submissions, and count. */
module Report {
  import opened Wrappers

  type Id = string

  /** A metadata field that may be absent, null or a string. */
  datatype Field = Missing | Null | Text(text: string)

  /** A value in the report; None is null. */
  type Label = Option<string>

  /** The metadata fields the report looks at; `rest` stands for all others. */
  datatype Metadata = Metadata(
    commandId: Option<string>,
    origin: Field,
    outcome: Field,
    rest: string)

  /** An input record; `id` is the database id in its string form. */
  datatype Event = Event(
    eventId: Option<string>,
    id: Option<string>,
    session: Option<string>,
    operation: string,
    metadata: Metadata,
    rest: string)

  datatype Entry = Entry(id: Id, event: Event)
  datatype Key = Key(session: Option<string>, command: Option<string>)
  datatype Kind = Submission | Completion | FileEvent | Other

  datatype CommandRecord = CommandRecord(
    key: Key,
    origin: Label,
    submission: Entry,
    outcome: Label,
    resultIds: seq<Id>,
    conflicting: bool,
    fileEvents: seq<Entry>)

  datatype Report = Report(
    unique: nat,
    duplicates: nat,
    origins: multiset<Label>,
    commands: seq<CommandRecord>,
    legacy: seq<Id>,
    unmatchedResults: seq<Id>,
    unmatchedFiles: seq<Id>,
    outcomes: multiset<Label>)

  /** `event.get('event_id') or event.get('id')` */
  function Identity(e: Event): Option<Id>
  {
    if Truthy(e.eventId) then e.eventId else e.id
  }

  function KeyOf(x: Entry): Key { Key(x.event.session, x.event.metadata.commandId) }

  /** `all(key)` */
  predicate Full(k: Key) { Truthy(k.session) && Truthy(k.command) }

  function KindOf(x: Entry): Kind
  {
    if x.event.operation == "ssh_command" then Submission
    else if x.event.operation == "ssh_command_result" then Completion
    else if x.event.operation in ["read", "write", "create", "unlink"] then FileEvent
    else Other
  }

  function OrElse(value: Option<string>, default: string): string
  {
    if value.Some? then value.value else default
  }

  /** `metadata.get(field, 'unknown')`: the default is for an absent field, not for null. */
  function OrUnknown(field: Field): Label
  {
    match field
    case Missing => Some("unknown")
    case Null => None
    case Text(text) => Some(text)
  }

  function OriginOf(x: Entry): Label { OrUnknown(x.event.metadata.origin) }

  predicate Joined(x: Entry) { KindOf(x) == Submission && Full(KeyOf(x)) }

  // ---- What a report is, whatever the input order -----------------------------------------

  predicate NoRepeats<T(==)>(s: seq<T>) { forall i, j | 0 <= i < j < |s| :: s[i] != s[j] }

  /** The list holds exactly the set's elements, each once. */
  ghost predicate Lists<T(!new)>(s: seq<T>, elements: set<T>)
  {
    NoRepeats(s) && forall x: T :: x in s <==> x in elements
  }

  ghost predicate Identified(events: seq<Event>)
  {
    && (forall e <- events :: Identity(e).Some?)
    && (forall e <- events, f <- events | Identity(e) == Identity(f) :: e == f)
  }

  /** The distinct records of an input all of whose events have an identity. */
  ghost function Entries(events: seq<Event>): set<Entry>
  {
    set e | e in events && Identity(e).Some? :: Entry(Identity(e).value, e)
  }

  ghost function SetOf(entries: seq<Entry>): set<Entry> { set x | x in entries }

  ghost predicate OneSubmissionPerKey(u: set<Entry>)
  {
    forall x <- u, y <- u | Joined(x) && Joined(y) && KeyOf(x) == KeyOf(y) :: x == y
  }

  ghost function SubmissionKeys(u: set<Entry>): set<Key> { set x | x in u && Joined(x) :: KeyOf(x) }

  ghost function Of(u: set<Entry>, kind: Kind, k: Key): set<Entry>
  {
    set x | x in u && KindOf(x) == kind && KeyOf(x) == k
  }

  ghost function Unmatched(u: set<Entry>, kind: Kind): set<Entry>
  {
    set x | x in u && KindOf(x) == kind && KeyOf(x) !in SubmissionKeys(u)
  }

  ghost function Ids(u: set<Entry>): set<Id> { set x | x in u :: x.id }

  ghost predicate Describes(c: CommandRecord, u: set<Entry>)
  {
    && c.submission in u && Joined(c.submission) && KeyOf(c.submission) == c.key && c.origin == OriginOf(c.submission)
    && Lists(c.resultIds, Ids(Of(u, Completion, c.key)))
    && (c.conflicting <==> |Of(u, Completion, c.key)| > 1)
    && (forall x <- Of(u, Completion, c.key) | |Of(u, Completion, c.key)| == 1 ::
          c.outcome == OrUnknown(x.event.metadata.outcome))
    && (|Of(u, Completion, c.key)| != 1 ==> c.outcome == Some("unknown"))
    && Lists(c.fileEvents, Of(u, FileEvent, c.key))
  }

  /** Python's `sorted` on the submissions' keys: ascending, each key once. */
  type Sorter = set<Key> -> seq<Key>

  predicate LexLess(a: string, b: string)
  {
    b != "" && (a == "" || a[0] < b[0] || (a[0] == b[0] && LexLess(a[1..], b[1..])))
  }

  predicate KeyLess(a: Key, b: Key)
  {
    var (s, t) := (OrElse(a.session, ""), OrElse(b.session, ""));
    LexLess(s, t) || (s == t && LexLess(OrElse(a.command, ""), OrElse(b.command, "")))
  }

  ghost predicate IsSort(sorted: Sorter)
  {
    forall keys: set<Key> | AllFull(keys) :: Lists(sorted(keys), keys) && Ascending(sorted(keys))
  }

  predicate AllFull(keys: set<Key>) { forall k <- keys :: Full(k) }

  predicate Ascending(keys: seq<Key>) { forall i, j | 0 <= i < j < |keys| :: KeyLess(keys[i], keys[j]) }

  function KeysOf(commands: seq<CommandRecord>): seq<Key>
  {
    seq(|commands|, k requires 0 <= k < |commands| => commands[k].key)
  }

  /** The outcomes of the participants' commands, with multiplicity. */
  function OutcomesOf(commands: seq<CommandRecord>): multiset<Label>
    decreases |commands|
  {
    if commands == [] then multiset{}
    else
      var c := commands[|commands| - 1];
      var before := OutcomesOf(commands[..|commands| - 1]);
      if c.origin == Some("participant") then before + multiset{c.outcome} else before
  }

  ghost predicate Reconciles(sorted: Sorter, r: Report, events: seq<Event>)
  {
    var u := Entries(events);
    && r.unique == |u| && r.unique + r.duplicates == |events|
    && (forall o: Label :: r.origins[o] == |set x | x in u && KindOf(x) == Submission && OriginOf(x) == o|)
    && KeysOf(r.commands) == sorted(SubmissionKeys(u))
    && (forall i | 0 <= i < |r.commands| :: Describes(r.commands[i], u))
    && Lists(r.legacy, Ids(set x | x in u && KindOf(x) == Submission && !Full(KeyOf(x))))
    && Lists(r.unmatchedResults, Ids(Unmatched(u, Completion)))
    && Lists(r.unmatchedFiles, Ids(Unmatched(u, FileEvent)))
    && r.outcomes == OutcomesOf(r.commands)
  }

  // ---- Deduplication -----------------------------------------------------------------------

  datatype Failure = NoIdentity | ConflictingRecords | MultipleSubmissions
  datatype Outcome<+T> = Done(value: T) | Raised(failure: Failure)

  predicate DistinctIds(entries: seq<Entry>)
  {
    forall i, j | 0 <= i < j < |entries| :: entries[i].id != entries[j].id
  }

  /** First occurrences in input order, and how many records were repeats. */
  method Deduplicate(events: seq<Event>) returns (result: Outcome<(seq<Entry>, nat)>)
    ensures result.Done? <==> Identified(events)
    ensures result.Done? ==>
              var (entries, duplicates) := result.value;
              && DistinctIds(entries) && |entries| + duplicates == |events|
              && forall x :: x in entries <==> x in Entries(events)
  {
    var unique: map<Id, Event>, order: seq<Entry>, duplicates := map[], [], 0;
    for i := 0 to |events|
      invariant DistinctIds(order) && |order| + duplicates == i
      invariant forall x <- order :: x.id in unique && unique[x.id] == x.event
      invariant forall id <- unique :: Entry(id, unique[id]) in order && unique[id] in events[..i] && Identity(unique[id]) == Some(id)
      invariant forall j | 0 <= j < i :: Identity(events[j]).Some? && Identity(events[j]).value in unique && unique[Identity(events[j]).value] == events[j]
    {
      var e := events[i];
      var identity := Identity(e);
      if identity.None? { return Raised(NoIdentity); }
      if identity.value in unique {
        if unique[identity.value] != e { return Raised(ConflictingRecords); }
        duplicates := duplicates + 1;
      } else {
        unique := unique[identity.value := e];
        order := order + [Entry(identity.value, e)];
      }
    }
    return Done((order, duplicates));
  }

  // ---- Joining -----------------------------------------------------------------------------

  /** The entries of a kind under a key, in order: what `setdefault(key, []).append` collects. */
  function Bucket(entries: seq<Entry>, kind: Kind, k: Key): seq<Entry>
    decreases |entries|
  {
    if entries == [] then []
    else
      var x := entries[|entries| - 1];
      var before := Bucket(entries[..|entries| - 1], kind, k);
      if KindOf(x) == kind && KeyOf(x) == k then before + [x] else before
  }

  type Buckets = map<Key, seq<Entry>>

  function Get(buckets: Buckets, k: Key): seq<Entry>
  {
    if k in buckets then buckets[k] else []
  }

  function IdsOf(entries: seq<Entry>): seq<Id>
  {
    seq(|entries|, k requires 0 <= k < |entries| => entries[k].id)
  }

  /** The list of ids under keys without a submission, key by key. */
  function UnmatchedIds(order: seq<Key>, buckets: Buckets, matched: set<Key>): seq<Id>
  {
    if order == [] then []
    else (if order[0] in matched then [] else IdsOf(Get(buckets, order[0]))) + UnmatchedIds(order[1..], buckets, matched)
  }

  function CommandOf(submission: Entry, completions: seq<Entry>, effects: seq<Entry>): CommandRecord
  {
    CommandRecord(KeyOf(submission), OriginOf(submission), submission,
      if |completions| == 1 then OrUnknown(completions[0].event.metadata.outcome) else Some("unknown"),
      IdsOf(completions), |completions| > 1, effects)
  }

  /** Collected buckets: under every key the matching entries so far, and the keys in the
      order of their first entry. */
  ghost predicate Collected(buckets: Buckets, order: seq<Key>, entries: seq<Entry>, kind: Kind)
  {
    && NoRepeats(order) && (forall k: Key :: k in order <==> k in buckets)
    && (forall k: Key :: Get(buckets, k) == Bucket(entries, kind, k))
  }

  function AddTo(buckets: Buckets, k: Key, x: Entry): Buckets { buckets[k := Get(buckets, k) + [x]] }

  function AddKey(order: seq<Key>, k: Key): seq<Key> { if k in order then order else order + [k] }

  lemma BucketMore(entries: seq<Entry>, n: nat, kind: Kind, k: Key)
    requires n < |entries|
    ensures Bucket(entries[..n + 1], kind, k) ==
            Bucket(entries[..n], kind, k) + (if KindOf(entries[n]) == kind && KeyOf(entries[n]) == k then [entries[n]] else [])
  {
    hide KindOf, KeyOf;
    assert entries[..n + 1][..n] == entries[..n];
  }

  lemma CollectMore(buckets: Buckets, order: seq<Key>, entries: seq<Entry>, n: nat, kind: Kind)
    requires n < |entries| && Collected(buckets, order, entries[..n], kind)
    ensures var x := entries[n];
            if KindOf(x) == kind then
              Collected(AddTo(buckets, KeyOf(x), x), AddKey(order, KeyOf(x)), entries[..n + 1], kind)
            else Collected(buckets, order, entries[..n + 1], kind)
  {
    hide KindOf, KeyOf, Bucket;
    forall k: Key
      ensures Bucket(entries[..n + 1], kind, k) ==
        Bucket(entries[..n], kind, k) + (if KindOf(entries[n]) == kind && KeyOf(entries[n]) == k then [entries[n]] else [])
    {
      BucketMore(entries, n, kind, k);
    }
    var x := entries[n];
    if KindOf(x) == kind {
      forall k: Key ensures Get(AddTo(buckets, KeyOf(x), x), k) == Bucket(entries[..n + 1], kind, k) {
        assert Get(buckets, k) == Bucket(entries[..n], kind, k);
      }
      assert NoRepeats(AddKey(order, KeyOf(x)));
    }
  }

  /** The submissions dictionary after some entries. */
  ghost predicate Submitted(submissions: map<Key, Entry>, entries: seq<Entry>)
  {
    && (forall k <- submissions :: submissions[k] in entries && Joined(submissions[k]) && KeyOf(submissions[k]) == k)
    && (forall x <- entries | Joined(x) :: KeyOf(x) in submissions && submissions[KeyOf(x)] == x)
  }

  function OriginsOf(entries: seq<Entry>): multiset<Label>
    decreases |entries|
  {
    if entries == [] then multiset{}
    else
      var x := entries[|entries| - 1];
      var before := OriginsOf(entries[..|entries| - 1]);
      if KindOf(x) == Submission then before + multiset{OriginOf(x)} else before
  }

  function LegacyOf(entries: seq<Entry>): seq<Entry>
    decreases |entries|
  {
    if entries == [] then []
    else
      var x := entries[|entries| - 1];
      var before := LegacyOf(entries[..|entries| - 1]);
      if KindOf(x) == Submission && !Full(KeyOf(x)) then before + [x] else before
  }

  datatype Tables = Tables(
    submissions: map<Key, Entry>,
    results: Buckets, resultOrder: seq<Key>,
    effects: Buckets, effectOrder: seq<Key>,
    origins: multiset<Label>,
    legacy: seq<Entry>)

  ghost predicate Joins(t: Tables, entries: seq<Entry>)
  {
    && Submitted(t.submissions, entries)
    && Collected(t.results, t.resultOrder, entries, Completion)
    && Collected(t.effects, t.effectOrder, entries, FileEvent)
    && t.origins == OriginsOf(entries) && t.legacy == LegacyOf(entries)
    && |t.origins| == |t.submissions| + |t.legacy|
  }

  lemma CountMore(entries: seq<Entry>, n: nat)
    requires n < |entries|
    ensures var x := entries[n];
            && OriginsOf(entries[..n + 1]) ==
               OriginsOf(entries[..n]) + (if KindOf(x) == Submission then multiset{OriginOf(x)} else multiset{})
            && LegacyOf(entries[..n + 1]) ==
               LegacyOf(entries[..n]) + (if KindOf(x) == Submission && !Full(KeyOf(x)) then [x] else [])
  {
    hide KindOf, KeyOf, Full, OriginOf;
    assert entries[..n + 1][..n] == entries[..n];
  }

  lemma SubmitMore(submissions: map<Key, Entry>, entries: seq<Entry>, n: nat)
    requires DistinctIds(entries) && n < |entries| && Submitted(submissions, entries[..n])
    ensures var x := entries[n];
            && (!Joined(x) ==> Submitted(submissions, entries[..n + 1]))
            && (Joined(x) && KeyOf(x) !in submissions ==> Submitted(submissions[KeyOf(x) := x], entries[..n + 1]))
            && (Joined(x) && KeyOf(x) in submissions ==> !OneSubmissionPerKey(SetOf(entries)))
  {
    hide KeyOf, Joined;
    var x := entries[n];
    assert entries[..n + 1] == entries[..n] + [x];
    if Joined(x) && KeyOf(x) in submissions {
      var y := submissions[KeyOf(x)];
      assert y in entries[..n] && y in entries && x in entries && y.id != x.id;
    }
  }

  /** The classification loop. */
  method Classify(entries: seq<Entry>) returns (result: Outcome<Tables>)
    requires DistinctIds(entries)
    ensures result.Done? <==> OneSubmissionPerKey(SetOf(entries))
    ensures result.Done? ==> Joins(result.value, entries)
  {
    hide Collected, Submitted, AddTo, AddKey, Full, KindOf, KeyOf, OriginOf, OriginsOf, LegacyOf, OneSubmissionPerKey, DistinctIds;
    var submissions: map<Key, Entry>, origins: multiset<Label>, legacy: seq<Entry> := map[], multiset{}, [];
    var results: Buckets, resultOrder: seq<Key> := map[], [];
    var effects: Buckets, effectOrder: seq<Key> := map[], [];
    NothingYet();
    for n := 0 to |entries|
      invariant Submitted(submissions, entries[..n])
      invariant Collected(results, resultOrder, entries[..n], Completion)
      invariant Collected(effects, effectOrder, entries[..n], FileEvent)
      invariant origins == OriginsOf(entries[..n]) && legacy == LegacyOf(entries[..n])
      invariant |origins| == |submissions| + |legacy|
    {
      var x := entries[n];
      var key := KeyOf(x);
      SubmitMore(submissions, entries, n);
      CountMore(entries, n);
      CollectMore(results, resultOrder, entries, n, Completion);
      CollectMore(effects, effectOrder, entries, n, FileEvent);
      match KindOf(x) {
        case Submission =>
          origins := origins + multiset{OriginOf(x)};
          if !Full(key) {
            legacy := legacy + [x];
          } else {
            if key in submissions { return Raised(MultipleSubmissions); }
            submissions := submissions[key := x];
          }
        case Completion =>
          results, resultOrder := AddTo(results, key, x), AddKey(resultOrder, key);
        case FileEvent =>
          effects, effectOrder := AddTo(effects, key, x), AddKey(effectOrder, key);
        case Other =>
      }
    }
    assert entries[..|entries|] == entries;
    assert OneSubmissionPerKey(SetOf(entries)) by { SubmittedOnce(submissions, entries); }
    return Done(Tables(submissions, results, resultOrder, effects, effectOrder, origins, legacy));
  }

  lemma SubmittedOnce(submissions: map<Key, Entry>, entries: seq<Entry>)
    requires Submitted(submissions, entries)
    ensures OneSubmissionPerKey(SetOf(entries))
  {
    hide Joined, KeyOf;
  }

  lemma NothingYet()
    ensures Submitted(map[], []) && OriginsOf([]) == multiset{} && LegacyOf([]) == []
    ensures Collected(map[], [], [], Completion) && Collected(map[], [], [], FileEvent)
  {
  }
}
