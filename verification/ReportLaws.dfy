/** Consequences of reconciliation: input order is immaterial and nothing is lost. */
module ReportLaws {
  import opened Wrappers
  import opened Report
  import opened ReportTheorems

  // ---- Order ----------------------------------------------------------------------------------

  /** The same elements, each once, in whatever order. */
  ghost predicate SameList<T(!new)>(a: seq<T>, b: seq<T>)
  {
    NoRepeats(a) && NoRepeats(b) && forall x: T :: x in a <==> x in b
  }

  ghost predicate SameCommand(c: CommandRecord, d: CommandRecord)
  {
    && c.key == d.key && c.origin == d.origin && c.submission == d.submission && c.outcome == d.outcome
    && c.conflicting == d.conflicting && SameList(c.resultIds, d.resultIds) && SameList(c.fileEvents, d.fileEvents)
  }

  /** Equal but for the order inside lists of ids and file events. */
  ghost predicate SameReport(r: Report, s: Report)
  {
    && r.unique == s.unique && r.duplicates == s.duplicates && r.origins == s.origins
    && |r.commands| == |s.commands| && (forall i | 0 <= i < |r.commands| :: SameCommand(r.commands[i], s.commands[i]))
    && SameList(r.legacy, s.legacy) && SameList(r.unmatchedResults, s.unmatchedResults)
    && SameList(r.unmatchedFiles, s.unmatchedFiles) && r.outcomes == s.outcomes
  }

  lemma SameElements(a: seq<Event>, b: seq<Event>)
    requires multiset(a) == multiset(b)
    ensures |a| == |b| && forall e: Event :: e in a <==> e in b
  {
    assert |multiset(a)| == |a| && |multiset(b)| == |b|;
    forall e: Event ensures e in a <==> e in b {
      assert e in a <==> e in multiset(a);
      assert e in b <==> e in multiset(b);
    }
  }

  lemma SameEntries(a: seq<Event>, b: seq<Event>)
    requires forall e: Event :: e in a <==> e in b
    ensures Entries(a) == Entries(b)
  {
    hide Identity;
  }

  /** A reordered input fails exactly if the original does. */
  lemma FailsInAnyOrder(a: seq<Event>, b: seq<Event>)
    requires multiset(a) == multiset(b)
    ensures Identified(a) && OneSubmissionPerKey(Entries(a)) <==> Identified(b) && OneSubmissionPerKey(Entries(b))
  {
    hide OneSubmissionPerKey, Entries, Identity;
    SameElements(a, b);
    SameEntries(a, b);
  }

  lemma SameDescription(c: CommandRecord, d: CommandRecord, u: set<Entry>)
    requires OneSubmissionPerKey(u) && Describes(c, u) && Describes(d, u) && c.key == d.key
    ensures SameCommand(c, d)
  {
    hide Joined, KeyOf, Ids, Of;
    var results := Of(u, Completion, c.key);
    if |results| == 1 { One(results); }
  }

  lemma One(s: set<Entry>)
    requires |s| == 1
    ensures exists x :: x in s
  {
    assert s != {};
  }

  lemma {:induction false} SameOutcomes(a: seq<CommandRecord>, b: seq<CommandRecord>)
    requires |a| == |b| && forall i | 0 <= i < |a| :: SameCommand(a[i], b[i])
    ensures OutcomesOf(a) == OutcomesOf(b)
    decreases |a|
  {
    if a != [] {
      SameOutcomes(a[..|a| - 1], b[..|b| - 1]);
      assert SameCommand(a[|a| - 1], b[|b| - 1]);
    }
  }

  /** Reports of two orders of one input are the same report. */
  lemma OrderIsImmaterial(sorted: Sorter, a: seq<Event>, b: seq<Event>, r: Report, s: Report)
    requires multiset(a) == multiset(b) && OneSubmissionPerKey(Entries(a))
    requires Reconciles(sorted, r, a) && Reconciles(sorted, s, b)
    ensures SameReport(r, s)
  {
    hide OneSubmissionPerKey, Entries, Describes, OutcomesOf, SubmissionKeys, Ids, Unmatched, SameCommand;
    SameElements(a, b);
    SameEntries(a, b);
    var u := Entries(a);
    assert r.origins == s.origins by {
      forall o: Label ensures r.origins[o] == s.origins[o] {}
    }
    assert |KeysOf(r.commands)| == |KeysOf(s.commands)|;
    forall i | 0 <= i < |r.commands| ensures SameCommand(r.commands[i], s.commands[i]) {
      assert KeysOf(r.commands)[i] == KeysOf(s.commands)[i];
      SameDescription(r.commands[i], s.commands[i], u);
    }
    SameOutcomes(r.commands, s.commands);
  }

  // ---- Every event lands exactly once -----------------------------------------------------------

  /** Command `i` shows entry `x`. */
  predicate Shows(r: Report, i: int, x: Entry)
  {
    0 <= i < |r.commands| &&
    match KindOf(x)
    case Submission => r.commands[i].submission == x
    case Completion => x.id in r.commands[i].resultIds
    case FileEvent => x in r.commands[i].fileEvents
    case Other => false
  }

  /** Entry `x` is in the list for entries without a command. */
  predicate LeftOver(r: Report, x: Entry)
  {
    match KindOf(x)
    case Submission => x.id in r.legacy
    case Completion => x.id in r.unmatchedResults
    case FileEvent => x.id in r.unmatchedFiles
    case Other => false
  }

  ghost predicate InOneCommand(r: Report, x: Entry)
  {
    exists i :: Shows(r, i, x) && forall j | Shows(r, j, x) :: j == i
  }

  ghost predicate InNoCommand(r: Report, x: Entry)
  {
    forall i :: !Shows(r, i, x)
  }

  lemma IdMeansEntry(events: seq<Event>, part: set<Entry>, x: Entry)
    requires Identified(events) && part <= Entries(events) && x in Entries(events)
    ensures x.id in Ids(part) <==> x in part
  {
    hide Identity;
    if x.id in Ids(part) {
      var y :| y in part && y.id == x.id;
      assert y in Entries(events);
      assert y.event in events && x.event in events && Identity(y.event) == Identity(x.event);
    }
  }

  lemma ShownByItsKey(sorted: Sorter, r: Report, events: seq<Event>, x: Entry, i: int)
    requires Identified(events) && Reconciles(sorted, r, events) && x in Entries(events) && 0 <= i < |r.commands|
    requires OneSubmissionPerKey(Entries(events)) && KindOf(x) != Other
    ensures Shows(r, i, x) <==> KeyOf(x) == r.commands[i].key && (KindOf(x) == Submission ==> Full(KeyOf(x)))
  {
    hide Entries, Identified, Identity, KeyOf, Ids, OutcomesOf, SubmissionKeys, Unmatched, Full;
    var u := Entries(events);
    var c := r.commands[i];
    assert Describes(c, u);
    IdMeansEntry(events, Of(u, Completion, c.key), x);
  }

  lemma LeftOverByItsKey(sorted: Sorter, r: Report, events: seq<Event>, x: Entry)
    requires Identified(events) && Reconciles(sorted, r, events) && x in Entries(events) && KindOf(x) != Other
    ensures LeftOver(r, x) <==> if KindOf(x) == Submission then !Full(KeyOf(x)) else KeyOf(x) !in SubmissionKeys(Entries(events))
  {
    hide Entries, Identified, Identity, KeyOf, Ids, OutcomesOf, SubmissionKeys, Describes, Full;
    var u := Entries(events);
    IdMeansEntry(events, Unmatched(u, Completion), x);
    IdMeansEntry(events, Unmatched(u, FileEvent), x);
    var legacy := set y | y in u && KindOf(y) == Submission && !Full(KeyOf(y));
    IdMeansEntry(events, legacy, x);
  }

  /** Every submission, result and file event of the input is in exactly one command, or in
      the matching list of left-overs and in no command. The lists repeat nothing. */
  lemma LandsExactlyOnce(sorted: Sorter, r: Report, events: seq<Event>, x: Entry)
    requires IsSort(sorted) && Identified(events) && OneSubmissionPerKey(Entries(events)) && Reconciles(sorted, r, events)
    requires x in Entries(events) && KindOf(x) != Other
    ensures LeftOver(r, x) ==> InNoCommand(r, x)
    ensures !LeftOver(r, x) ==> InOneCommand(r, x)
  {
    hide Entries, Identified, OneSubmissionPerKey, Describes, OutcomesOf, Shows, LeftOver, IsSort, Full, KindOf, KeyOf;
    var u := Entries(events);
    var keys := KeysOf(r.commands);
    LeftOverByItsKey(sorted, r, events, x);
    forall k <- SubmissionKeys(u) ensures Full(k) { FullKeys(u, k); }
    SortedKeys(sorted, SubmissionKeys(u));
    forall i | 0 <= i < |r.commands|
      ensures Shows(r, i, x) <==> KeyOf(x) == keys[i] && (KindOf(x) == Submission ==> Full(KeyOf(x)))
      ensures keys[i] in SubmissionKeys(u)
    {
      ShownByItsKey(sorted, r, events, x, i);
      assert keys[i] in keys;
    }
    ShownInRange(r, x);
    OwnKey(u, x);
    if !LeftOver(r, x) {
      assert KeyOf(x) in keys;
      var i :| 0 <= i < |keys| && keys[i] == KeyOf(x);
      assert Shows(r, i, x);
      forall j | Shows(r, j, x) ensures j == i { assert keys[j] == keys[i]; }
    } else {
      forall i ensures !Shows(r, i, x) {
        assert 0 <= i < |r.commands| ==> keys[i] in SubmissionKeys(u) && Full(keys[i]);
      }
    }
  }

  lemma OwnKey(u: set<Entry>, x: Entry)
    requires x in u
    ensures KindOf(x) == Submission && Full(KeyOf(x)) ==> KeyOf(x) in SubmissionKeys(u)
  {
  }

  lemma FullKeys(u: set<Entry>, k: Key)
    requires k in SubmissionKeys(u)
    ensures Full(k)
  {
  }

  lemma ShownInRange(r: Report, x: Entry)
    ensures forall i | Shows(r, i, x) :: 0 <= i < |r.commands|
  {
  }

  // ---- Totals -------------------------------------------------------------------------------------

  function ParticipantCommands(commands: seq<CommandRecord>): set<int>
  {
    set i | 0 <= i < |commands| && commands[i].origin == Some("participant")
  }

  function ParticipantsWith(commands: seq<CommandRecord>, o: Label): set<int>
  {
    set i | 0 <= i < |commands| && commands[i].origin == Some("participant") && commands[i].outcome == o
  }

  lemma OneMoreCommand(front: seq<CommandRecord>, c: CommandRecord, o: Label)
    ensures var n := |front|;
            && ParticipantCommands(front + [c]) ==
               (if c.origin == Some("participant") then ParticipantCommands(front) + {n} else ParticipantCommands(front))
            && ParticipantsWith(front + [c], o) ==
               (if c.origin == Some("participant") && c.outcome == o then ParticipantsWith(front, o) + {n} else ParticipantsWith(front, o))
            && n !in ParticipantCommands(front) && n !in ParticipantsWith(front, o)
  {
    assert forall i | 0 <= i < |front| :: (front + [c])[i] == front[i];
  }

  lemma OneMoreOutcome(front: seq<CommandRecord>, c: CommandRecord)
    ensures OutcomesOf(front + [c]) ==
            if c.origin == Some("participant") then OutcomesOf(front) + multiset{c.outcome} else OutcomesOf(front)
  {
    assert (front + [c])[..|front|] == front;
  }

  /** The outcome counts add up to the participants' commands, in total and one by one. */
  lemma {:induction false} OutcomesAddUp(commands: seq<CommandRecord>, o: Label)
    ensures |OutcomesOf(commands)| == |ParticipantCommands(commands)|
    ensures OutcomesOf(commands)[o] == |ParticipantsWith(commands, o)|
    decreases |commands|
  {
    hide OutcomesOf, ParticipantCommands, ParticipantsWith;
    if commands == [] {
      NoOutcomes(o);
    } else {
      var front, c := commands[..|commands| - 1], commands[|commands| - 1];
      assert commands == front + [c];
      OutcomesAddUp(front, o);
      OneMoreCommand(front, c, o);
      OneMoreOutcome(front, c);
    }
  }

  lemma NoOutcomes(o: Label)
    ensures OutcomesOf([]) == multiset{} && ParticipantCommands([]) == {} && ParticipantsWith([], o) == {}
  {
  }
}
