/** The report is right for its input, the same for every input order, and loses nothing. */
module ReportTheorems {
  import opened Wrappers
  import opened Report

  // ---- Lists and sets -------------------------------------------------------------------------

  lemma {:induction false} ListLength<T(!new)>(s: seq<T>, elements: set<T>)
    requires Lists(s, elements)
    ensures |s| == |elements|
    decreases |s|
  {
    if s == [] {
      assert elements == {};
    } else {
      var front, x := s[..|s| - 1], s[|s| - 1];
      assert x in s && s == front + [x];
      assert Lists(front, elements - {x});
      ListLength(front, elements - {x});
      assert elements == (elements - {x}) + {x};
    }
  }

  /** `part` are the entries with some property, in order. */
  ghost predicate Selects(part: seq<Entry>, u: set<Entry>)
  {
    DistinctIds(part) && forall x: Entry :: x in part <==> x in u
  }

  lemma SelectedIds(part: seq<Entry>, u: set<Entry>)
    requires Selects(part, u)
    ensures Lists(part, u) && Lists(IdsOf(part), Ids(u)) && |part| == |u|
  {
    assert Lists(part, u);
    ListLength(part, u);
    forall id: Id ensures id in IdsOf(part) <==> id in Ids(u) {
      if id in IdsOf(part) {
        var k :| 0 <= k < |IdsOf(part)| && IdsOf(part)[k] == id;
        assert part[k] in u;
      }
      if id in Ids(u) {
        var x :| x in u && x.id == id;
        var k :| 0 <= k < |part| && part[k] == x;
        assert IdsOf(part)[k] == id;
      }
    }
  }

  lemma AllOfFront(entries: seq<Entry>)
    requires DistinctIds(entries) && entries != []
    ensures var front, x := entries[..|entries| - 1], entries[|entries| - 1];
            && DistinctIds(front) && x !in front && entries == front + [x]
            && forall y <- front :: y.id != x.id
  {
  }

  lemma AppendSelects(part: seq<Entry>, x: Entry, u: set<Entry>)
    requires Selects(part, u) && forall y <- u :: y.id != x.id
    ensures Selects(part + [x], u + {x})
  {
    forall i | 0 <= i < |part| ensures part[i].id != x.id { assert part[i] in u; }
  }

  ghost function LegacySet(entries: seq<Entry>): set<Entry>
  {
    set x | x in entries && KindOf(x) == Submission && !Full(KeyOf(x))
  }

  lemma {:induction false} BucketSelects(entries: seq<Entry>, kind: Kind, k: Key)
    requires DistinctIds(entries)
    ensures Selects(Bucket(entries, kind, k), Of(SetOf(entries), kind, k))
    decreases |entries|
  {
    hide KindOf, KeyOf;
    if entries != [] {
      AllOfFront(entries);
      var front, x := entries[..|entries| - 1], entries[|entries| - 1];
      BucketSelects(front, kind, k);
      var before := Of(SetOf(front), kind, k);
      if KindOf(x) == kind && KeyOf(x) == k {
        AppendSelects(Bucket(front, kind, k), x, before);
        assert Of(SetOf(entries), kind, k) == before + {x};
      } else {
        assert Of(SetOf(entries), kind, k) == before;
      }
    }
  }

  lemma {:induction false} LegacySelects(entries: seq<Entry>)
    requires DistinctIds(entries)
    ensures Selects(LegacyOf(entries), LegacySet(entries))
    decreases |entries|
  {
    hide KindOf, KeyOf, Full;
    if entries != [] {
      AllOfFront(entries);
      var front, x := entries[..|entries| - 1], entries[|entries| - 1];
      LegacySelects(front);
      if KindOf(x) == Submission && !Full(KeyOf(x)) { AppendSelects(LegacyOf(front), x, LegacySet(front)); }
      assert LegacySet(entries) ==
        if KindOf(x) == Submission && !Full(KeyOf(x)) then LegacySet(front) + {x} else LegacySet(front);
    }
  }

  ghost function WithOrigin(u: set<Entry>, o: Label): set<Entry>
  {
    set x | x in u && KindOf(x) == Submission && OriginOf(x) == o
  }

  lemma OriginsMore(front: seq<Entry>, x: Entry)
    ensures OriginsOf(front + [x]) ==
            OriginsOf(front) + (if KindOf(x) == Submission then multiset{OriginOf(x)} else multiset{})
  {
    assert (front + [x])[..|front|] == front;
  }

  lemma WithOriginMore(front: seq<Entry>, x: Entry, o: Label)
    requires x !in front
    ensures var before := WithOrigin(SetOf(front), o);
            && x !in before
            && WithOrigin(SetOf(front + [x]), o) ==
               (if KindOf(x) == Submission && OriginOf(x) == o then before + {x} else before)
  {
    hide KindOf, OriginOf;
  }

  lemma {:induction false} OriginCount(entries: seq<Entry>, o: Label)
    requires DistinctIds(entries)
    ensures OriginsOf(entries)[o] == |WithOrigin(SetOf(entries), o)|
    decreases |entries|
  {
    hide KindOf, OriginOf, OriginsOf, WithOrigin;
    if entries == [] {
      NoOrigins(o);
    } else {
      AllOfFront(entries);
      var front, x := entries[..|entries| - 1], entries[|entries| - 1];
      OriginCount(front, o);
      OriginsMore(front, x);
      WithOriginMore(front, x, o);
    }
  }

  lemma NoOrigins(o: Label)
    ensures OriginsOf([]) == multiset{} && WithOrigin(SetOf([]), o) == {}
  {
  }

  // ---- Unmatched lists ---------------------------------------------------------------------------

  /** Entries of a kind under the keys of `order` that have no submission. */
  ghost function Under(u: set<Entry>, kind: Kind, order: seq<Key>, matched: set<Key>): set<Entry>
  {
    set x | x in u && KindOf(x) == kind && KeyOf(x) in order && KeyOf(x) !in matched
  }

  lemma {:induction false} UnmatchedLists(entries: seq<Entry>, buckets: Buckets, kind: Kind, order: seq<Key>, matched: set<Key>)
    requires DistinctIds(entries) && NoRepeats(order)
    requires forall k: Key :: Get(buckets, k) == Bucket(entries, kind, k)
    ensures Lists(UnmatchedIds(order, buckets, matched), Ids(Under(SetOf(entries), kind, order, matched)))
    decreases |order|
  {
    hide Bucket, KindOf, KeyOf, Lists, Get;
    var u := SetOf(entries);
    if order == [] {
      assert Ids(Under(u, kind, order, matched)) == {};
      EmptyLists<Id>();
    } else {
      var k, later := order[0], order[1..];
      assert order == [k] + later && k !in later;
      UnmatchedLists(entries, buckets, kind, later, matched);
      var rest := UnmatchedIds(later, buckets, matched);
      if k in matched {
        assert Under(u, kind, order, matched) == Under(u, kind, later, matched);
        assert [] + rest == rest;
      } else {
        BucketSelects(entries, kind, k);
        SelectedIds(Bucket(entries, kind, k), Of(u, kind, k));
        assert Under(u, kind, order, matched) == Of(u, kind, k) + Under(u, kind, later, matched);
        UniqueIds(entries);
        DisjointIds(u, Of(u, kind, k), Under(u, kind, later, matched));
        AppendLists(IdsOf(Bucket(entries, kind, k)), rest, Ids(Of(u, kind, k)), Ids(Under(u, kind, later, matched)));
        assert Ids(Under(u, kind, order, matched)) == Ids(Of(u, kind, k)) + Ids(Under(u, kind, later, matched));
      }
    }
  }

  lemma EmptyLists<T(!new)>()
    ensures Lists<T>([], {})
  {
  }

  ghost predicate IdsAreUnique(u: set<Entry>) { forall x <- u, y <- u | x.id == y.id :: x == y }

  lemma UniqueIds(entries: seq<Entry>)
    requires DistinctIds(entries)
    ensures IdsAreUnique(SetOf(entries))
  {
  }

  lemma DisjointIds(u: set<Entry>, a: set<Entry>, b: set<Entry>)
    requires IdsAreUnique(u) && a <= u && b <= u && a !! b
    ensures Ids(a) !! Ids(b)
  {
  }

  lemma AppendLists<T(!new)>(s: seq<T>, t: seq<T>, a: set<T>, b: set<T>)
    requires Lists(s, a) && Lists(t, b) && a !! b
    ensures Lists(s + t, a + b)
  {
    forall i, j | 0 <= i < j < |s + t| ensures (s + t)[i] != (s + t)[j] {
      if i < |s| <= j { assert s[i] in a && t[j - |s|] in b; }
    }
  }

  /** Every key with an entry of the kind is in the order. */
  lemma OrderIsComplete(entries: seq<Entry>, buckets: Buckets, order: seq<Key>, kind: Kind, matched: set<Key>)
    requires DistinctIds(entries) && Collected(buckets, order, entries, kind)
    ensures var u := SetOf(entries);
            Under(u, kind, order, matched) == set x | x in u && KindOf(x) == kind && KeyOf(x) !in matched
  {
    hide KindOf, KeyOf, Bucket;
    var u := SetOf(entries);
    forall x | x in u && KindOf(x) == kind ensures KeyOf(x) in order {
      BucketSelects(entries, kind, KeyOf(x));
      assert x in Of(u, kind, KeyOf(x));
      assert Get(buckets, KeyOf(x)) != [];
    }
  }

  // ---- The report ------------------------------------------------------------------------------------

  lemma KeysOfSubmissions(submissions: map<Key, Entry>, entries: seq<Entry>)
    requires Submitted(submissions, entries)
    ensures SubmissionKeys(SetOf(entries)) == submissions.Keys && AllFull(submissions.Keys)
  {
    hide KeyOf;
  }

  lemma CommandDescribes(t: Tables, entries: seq<Entry>, k: Key)
    requires DistinctIds(entries) && Joins(t, entries) && k in t.submissions
    ensures Describes(CommandOf(t.submissions[k], Get(t.results, k), Get(t.effects, k)), SetOf(entries))
  {
    hide Bucket, Joined, Lists, OriginsOf, LegacyOf;
    var u := SetOf(entries);
    BucketSelects(entries, Completion, k);
    BucketSelects(entries, FileEvent, k);
    SelectedIds(Bucket(entries, Completion, k), Of(u, Completion, k));
    SelectedIds(Bucket(entries, FileEvent, k), Of(u, FileEvent, k));
    forall x <- Of(u, Completion, k) | |Of(u, Completion, k)| == 1
      ensures Bucket(entries, Completion, k)[0] == x
    {
      assert x in Bucket(entries, Completion, k);
    }
  }

  lemma SetIsEntries(entries: seq<Entry>, events: seq<Event>)
    requires forall x :: x in entries <==> x in Entries(events)
    ensures SetOf(entries) == Entries(events)
  {
    hide Entries;
  }

  method BuildCommands(t: Tables, keys: seq<Key>) returns (commands: seq<CommandRecord>)
    requires forall k <- keys :: k in t.submissions
    ensures |commands| == |keys| && forall i | 0 <= i < |keys| :: commands[i] == Built(t, keys[i])
  {
    hide CommandOf, Get;
    commands := [];
    for i := 0 to |keys|
      invariant |commands| == i
      invariant forall j | 0 <= j < i :: commands[j] == Built(t, keys[j])
    {
      assert keys[i] in keys;
      commands := commands + [CommandOf(t.submissions[keys[i]], Get(t.results, keys[i]), Get(t.effects, keys[i]))];
    }
  }

  /** `build_report`: it fails exactly on a record without identity, on different records
      under one identity, or on two submissions of one command; otherwise the report says
      what the set of distinct records says. */
  method BuildReport(sorted: Sorter, events: seq<Event>) returns (result: Outcome<Report>)
    requires IsSort(sorted)
    ensures result.Done? <==> Identified(events) && OneSubmissionPerKey(Entries(events))
    ensures result.Done? ==>
              && Reconciles(sorted, result.value, events)
              && |result.value.origins| == |result.value.commands| + |result.value.legacy|
  {
    hide Identified, OneSubmissionPerKey, Entries, Joins, DistinctIds, Reconciles, IsSort, OutcomesOf, AllFull, Built;
    var deduplicated := Deduplicate(events);
    if deduplicated.Raised? { return Raised(deduplicated.failure); }
    var (entries, duplicates) := deduplicated.value;
    SetIsEntries(entries, events);
    var classified := Classify(entries);
    if classified.Raised? { return Raised(classified.failure); }
    var t := classified.value;
    var keys := sorted(t.submissions.Keys);
    JoinedKeysAreFull(t, entries);
    SortedKeys(sorted, t.submissions.Keys);
    var commands := BuildCommands(t, keys);
    var report := Report(|entries|, duplicates, t.origins, commands, IdsOf(t.legacy),
      UnmatchedIds(t.resultOrder, t.results, t.submissions.Keys),
      UnmatchedIds(t.effectOrder, t.effects, t.submissions.Keys), OutcomesOf(commands));
    ReportReconciles(sorted, events, entries, t, report);
    return Done(report);
  }

  lemma JoinedKeysAreFull(t: Tables, entries: seq<Entry>)
    requires Joins(t, entries)
    ensures AllFull(t.submissions.Keys) && SubmissionKeys(SetOf(entries)) == t.submissions.Keys
  {
    hide Submitted, AllFull, SubmissionKeys;
    KeysOfSubmissions(t.submissions, entries);
  }

  function Built(t: Tables, k: Key): CommandRecord
    requires k in t.submissions
  {
    CommandOf(t.submissions[k], Get(t.results, k), Get(t.effects, k))
  }

  lemma SortedKeys(sorted: Sorter, keys: set<Key>)
    requires IsSort(sorted) && AllFull(keys)
    ensures Lists(sorted(keys), keys) && |sorted(keys)| == |keys|
  {
    ListLength(sorted(keys), keys);
  }

  lemma ReportReconciles(sorted: Sorter, events: seq<Event>, entries: seq<Entry>, t: Tables, r: Report)
    requires IsSort(sorted) && DistinctIds(entries) && Joins(t, entries)
    requires SetOf(entries) == Entries(events) && r.unique == |entries| && |entries| + r.duplicates == |events|
    requires var keys := sorted(t.submissions.Keys);
             (forall k <- keys :: k in t.submissions) &&
             |r.commands| == |keys| && forall i | 0 <= i < |keys| :: r.commands[i] == Built(t, keys[i])
    requires r.origins == t.origins && r.legacy == IdsOf(t.legacy) && r.outcomes == OutcomesOf(r.commands)
    requires r.unmatchedResults == UnmatchedIds(t.resultOrder, t.results, t.submissions.Keys)
    requires r.unmatchedFiles == UnmatchedIds(t.effectOrder, t.effects, t.submissions.Keys)
    ensures Reconciles(sorted, r, events) && |r.origins| == |r.commands| + |r.legacy|
  {
    hide Entries, Lists, IsSort, OutcomesOf, OriginsOf, LegacyOf, Describes, DistinctIds, Collected, Submitted, Ids, UnmatchedIds;
    var u := SetOf(entries);
    var keys := sorted(t.submissions.Keys);
    JoinedKeysAreFull(t, entries);
    SortedKeys(sorted, t.submissions.Keys);
    EntriesCount(entries);
    LegacySelects(entries);
    SelectedIds(t.legacy, LegacySet(entries));
    assert LegacySet(entries) == set x | x in u && KindOf(x) == Submission && !Full(KeyOf(x));
    forall o: Label ensures r.origins[o] == |set x | x in u && KindOf(x) == Submission && OriginOf(x) == o| {
      OriginCount(entries, o);
    }
    CommandsDescribe(sorted, entries, t, r.commands);
    UnmatchedAreListed(entries, t.results, t.resultOrder, Completion, t.submissions.Keys);
    UnmatchedAreListed(entries, t.effects, t.effectOrder, FileEvent, t.submissions.Keys);
  }

  lemma EntriesCount(entries: seq<Entry>)
    requires DistinctIds(entries)
    ensures |entries| == |SetOf(entries)|
  {
    ListLength(entries, SetOf(entries));
  }

  lemma CommandsDescribe(sorted: Sorter, entries: seq<Entry>, t: Tables, commands: seq<CommandRecord>)
    requires IsSort(sorted) && DistinctIds(entries) && Joins(t, entries)
    requires var keys := sorted(t.submissions.Keys);
             (forall k <- keys :: k in t.submissions) &&
             |commands| == |keys| && forall i | 0 <= i < |keys| :: commands[i] == Built(t, keys[i])
    ensures KeysOf(commands) == sorted(t.submissions.Keys)
    ensures forall i | 0 <= i < |commands| :: Describes(commands[i], SetOf(entries))
  {
    hide IsSort, OriginsOf, LegacyOf, Describes, DistinctIds, Collected;
    var keys := sorted(t.submissions.Keys);
    JoinedKeysAreFull(t, entries);
    SortedKeys(sorted, t.submissions.Keys);
    forall i | 0 <= i < |commands| ensures Describes(commands[i], SetOf(entries)) && commands[i].key == keys[i] {
      assert keys[i] in keys;
      CommandDescribes(t, entries, keys[i]);
    }
  }

  lemma UnmatchedAreListed(entries: seq<Entry>, buckets: Buckets, order: seq<Key>, kind: Kind, matched: set<Key>)
    requires DistinctIds(entries) && Collected(buckets, order, entries, kind)
    requires matched == SubmissionKeys(SetOf(entries))
    ensures Lists(UnmatchedIds(order, buckets, matched), Ids(Unmatched(SetOf(entries), kind)))
  {
    hide Lists, Bucket, DistinctIds, Get, SubmissionKeys;
    UnmatchedLists(entries, buckets, kind, order, matched);
    OrderIsComplete(entries, buckets, order, kind, matched);
    assert Under(SetOf(entries), kind, order, matched) == Unmatched(SetOf(entries), kind);
  }

  // ---- Keys can be sorted -------------------------------------------------------------------------

  lemma {:induction false} LexTotal(a: string, b: string)
    ensures LexLess(a, b) || a == b || LexLess(b, a)
    decreases |a|
  {
    if a != "" && b != "" && a[0] == b[0] {
      LexTotal(a[1..], b[1..]);
      assert a == [a[0]] + a[1..] && b == [b[0]] + b[1..];
    }
  }

  lemma {:induction false} LexTransitive(a: string, b: string, c: string)
    requires LexLess(a, b) && LexLess(b, c)
    ensures LexLess(a, c)
    decreases |a|
  {
    if a != "" && a[0] == b[0] == c[0] { LexTransitive(a[1..], b[1..], c[1..]); }
  }

  lemma KeyTotal(a: Key, b: Key)
    requires Full(a) && Full(b)
    ensures KeyLess(a, b) || a == b || KeyLess(b, a)
  {
    LexTotal(a.session.value, b.session.value);
    LexTotal(a.command.value, b.command.value);
  }

  lemma KeyTransitive(a: Key, b: Key, c: Key)
    requires KeyLess(a, b) && KeyLess(b, c)
    ensures KeyLess(a, c)
  {
    hide LexLess;
    var (s, t, u) := (OrElse(a.session, ""), OrElse(b.session, ""), OrElse(c.session, ""));
    var (x, y, z) := (OrElse(a.command, ""), OrElse(b.command, ""), OrElse(c.command, ""));
    if LexLess(s, t) && LexLess(t, u) { LexTransitive(s, t, u); }
    if LexLess(x, y) && LexLess(y, z) { LexTransitive(x, y, z); }
  }

  ghost predicate SortedList(s: seq<Key>, keys: set<Key>) { Lists(s, keys) && Ascending(s) }

  /** A key can be put in its place in a sorted list. */
  lemma {:induction false} Insert(s: seq<Key>, keys: set<Key>, k: Key) returns (longer: seq<Key>)
    requires SortedList(s, keys) && k !in keys && AllFull(keys) && Full(k)
    ensures SortedList(longer, keys + {k})
    decreases |s|
  {
    hide KeyLess, Full;
    if s == [] {
      longer := [k];
    } else {
      var front, last := s[..|s| - 1], s[|s| - 1];
      assert s == front + [last] && last in s;
      KeyTotal(last, k);
      if KeyLess(last, k) {
        longer := s + [k];
        forall i | 0 <= i < |s| ensures KeyLess(s[i], k) {
          if i < |s| - 1 { KeyTransitive(s[i], last, k); }
        }
      } else {
        assert SortedList(front, keys - {last}) && AllFull(keys - {last});
        var rest := Insert(front, keys - {last}, k);
        longer := rest + [last];
        assert keys + {k} == (keys - {last} + {k}) + {last};
        forall i | 0 <= i < |rest| ensures KeyLess(rest[i], last) {
          assert rest[i] in rest;
          if rest[i] != k {
            var j :| 0 <= j < |front| && front[j] == rest[i];
            assert s[j] == rest[i];
          }
        }
        assert forall x: Key :: x in longer <==> x in rest || x == last;
        assert last !in rest;
      }
    }
  }

  lemma {:induction false} CanSort(keys: set<Key>) returns (s: seq<Key>)
    requires AllFull(keys)
    ensures SortedList(s, keys)
    decreases |keys|
  {
    if keys == {} {
      s := [];
    } else {
      var k :| k in keys;
      var rest := CanSort(keys - {k});
      s := Insert(rest, keys - {k}, k);
      assert keys - {k} + {k} == keys;
    }
  }

  ghost function SortOf(keys: set<Key>): seq<Key>
  {
    if exists s :: SortedList(s, keys) then (var s :| SortedList(s, keys); s) else []
  }

  /** There is such a sort, so the report's premise can be met. */
  lemma SortExists()
    ensures IsSort(keys => SortOf(keys))
  {
    hide Lists, Ascending, AllFull;
    forall keys: set<Key> | AllFull(keys) ensures SortedList(SortOf(keys), keys) {
      var s := CanSort(keys);
    }
  }
}
