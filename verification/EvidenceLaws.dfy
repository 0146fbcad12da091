/** What a fold's record says about the session's events: visits, detection and the end. */
module EvidenceLaws {
  import opened Wrappers
  import opened AuditSpool
  import opened EvidenceFold

  /** A row of session `s` that a fold up to `upTo` takes in. */
  predicate Counts(row: LogRow, s: string, upTo: nat)
  {
    row.event.session == s && row.id <= upTo
  }

  predicate Visits(row: LogRow, path: string)
  {
    row.event.operation in ["read", "create", "getattr", "readdir"] && row.event.path == path && path != ""
  }

  /** A submitted command that the analyser or the threat library reacts to. */
  predicate Flagged(rules: Rules, row: LogRow)
  {
    row.event.operation == "ssh_command" && Truthy(Get(row.event.metadata, "command")) &&
    var analysis := rules.analyze(row.event.metadata["command"]);
    analysis.risk > 0 || analysis.signatures != []
  }

  predicate Ends(row: LogRow) { row.event.operation == "ssh_disconnect" }

  predicate NoRepeats(s: seq<string>) { forall i, j | 0 <= i < j < |s| :: s[i] != s[j] }

  lemma HandleVisits(rules: Rules, data: Evidence, row: LogRow)
    requires NoRepeats(data.visitedFiles)
    ensures var after := Handle(rules, data, row).visitedFiles;
            NoRepeats(after) && data.visitedFiles <= after &&
            forall path: string :: path in after <==> path in data.visitedFiles || Visits(row, path)
  {
    hide OnCommand, OnResult, OnDisconnect, LastSlash;
    CommandKeepsVisits(rules, data, row.event);
  }

  lemma CommandKeepsVisits(rules: Rules, data: Evidence, e: AuditEvent)
    ensures OnCommand(rules, data, e).visitedFiles == data.visitedFiles
    ensures OnResult(data, e).visitedFiles == data.visitedFiles
    ensures OnDisconnect(data, e).visitedFiles == data.visitedFiles
  {
  }

  /** The visited files are exactly the paths of the session's file events, each once. */
  lemma {:induction false} FoldVisits(rules: Rules, log: seq<LogRow>, s: string, upTo: nat)
    ensures var f := FoldTo(rules, log, s, upTo);
            var visited := if f.Some? then f.value.visitedFiles else [];
            && NoRepeats(visited)
            && forall path: string :: path in visited <==>
                 exists k | 0 <= k < |log| :: Counts(log[k], s, upTo) && Visits(log[k], path)
    decreases |log|
  {
    hide Handle, Visits;
    if log != [] {
      var front, row := FrontRows(log), log[|log| - 1];
      assert log == front + [row];
      FoldVisits(rules, front, s, upTo);
      var before := FoldTo(rules, front, s, upTo);
      if Counts(row, s, upTo) {
        HandleVisits(rules, if before.Some? then before.value else Default(row.event.timestamp), row);
      }
      forall path: string
        ensures (exists k | 0 <= k < |log| :: Counts(log[k], s, upTo) && Visits(log[k], path)) <==>
                (exists k | 0 <= k < |front| :: Counts(front[k], s, upTo) && Visits(front[k], path)) ||
                (Counts(row, s, upTo) && Visits(row, path))
      {
        LastOrFront(log, s, upTo, path);
      }
    }
  }

  lemma LastOrFront(log: seq<LogRow>, s: string, upTo: nat, path: string)
    requires log != []
    ensures var front, row := FrontRows(log), log[|log| - 1];
            (exists k | 0 <= k < |log| :: Counts(log[k], s, upTo) && Visits(log[k], path)) <==>
            (exists k | 0 <= k < |front| :: Counts(front[k], s, upTo) && Visits(front[k], path)) ||
            (Counts(row, s, upTo) && Visits(row, path))
  {
    hide Visits, Counts;
    var front := FrontRows(log);
    if k :| 0 <= k < |front| && Counts(front[k], s, upTo) && Visits(front[k], path) {
      assert front[k] == log[k];
    }
    if k :| 0 <= k < |log| && Counts(log[k], s, upTo) && Visits(log[k], path) {
      assert k < |front| ==> front[k] == log[k];
    }
  }

  // ---- The traversal graph ------------------------------------------------------------------

  /** `path` is the child under the parent: split at its last slash, the root's own name
      being "/". */
  predicate Splits(path: string, parent: string, child: string)
  {
    '/' !in child &&
    ((parent != "" && path == parent + "/" + child) || (parent == "/" && path == "/" + child))
  }

  predicate Edge(graph: map<string, seq<string>>, parent: string, child: string)
  {
    parent in graph && child in graph[parent]
  }

  /** Every parent listed has children, each listed once. */
  predicate Graph(graph: map<string, seq<string>>)
  {
    forall parent <- graph :: graph[parent] != [] && NoRepeats(graph[parent])
  }

  predicate Opens(row: LogRow, parent: string, child: string)
  {
    row.event.operation in ["read", "create", "getattr", "readdir"] && Splits(row.event.path, parent, child)
  }

  /** The last slash: nothing after it is one. */
  lemma {:induction false} LastSlashIsLast(path: string)
    ensures LastSlash(path).None? ==> '/' !in path
    ensures LastSlash(path).Some? ==>
              LastSlash(path).value < |path| && path[LastSlash(path).value] == '/'
              && '/' !in path[LastSlash(path).value + 1..]
    decreases |path|
  {
    if path != "" {
      var front := path[..|path| - 1];
      assert path == front + [path[|path| - 1]];
      if path[|path| - 1] != '/' {
        LastSlashIsLast(front);
        if LastSlash(path).Some? {
          var k := LastSlash(path).value;
          assert path[k + 1..] == front[k + 1..] + [path[|path| - 1]];
        }
      }
    }
  }

  lemma LastIsUnique(path: string, k: nat, n: nat)
    requires k < |path| && n < |path| && path[k] == '/' && path[n] == '/'
    requires '/' !in path[k + 1..] && '/' !in path[n + 1..]
    ensures k == n
  {
    assert forall i | n < i < |path| :: path[i] == path[n + 1..][i - n - 1];
    assert forall i | k < i < |path| :: path[i] == path[k + 1..][i - k - 1];
  }

  lemma SplitPlace(path: string, parent: string, child: string) returns (n: nat)
    requires Splits(path, parent, child)
    ensures n < |path| && path[n] == '/' && path[n + 1..] == child && parent == if n == 0 then "/" else path[..n]
  {
    n := |path| - |child| - 1;
    assert path[n + 1..] == child;
    if path == parent + "/" + child { assert path[..n] == parent; }
  }

  lemma SplitHere(path: string, k: nat)
    requires k < |path| && path[k] == '/' && '/' !in path[k + 1..]
    ensures Splits(path, if k == 0 then "/" else path[..k], path[k + 1..])
  {
    assert path == path[..k] + "/" + path[k + 1..];
    if k == 0 { assert path == "/" + path[1..]; }
  }

  /** A path with a slash has exactly one parent and child; one without has none. */
  lemma OneSplit(path: string, parent: string, child: string)
    ensures LastSlash(path).None? ==> !Splits(path, parent, child)
    ensures LastSlash(path).Some? && LastSlash(path).value < |path| ==>
              var k := LastSlash(path).value;
              Splits(path, parent, child) <==> parent == (if k == 0 then "/" else path[..k]) && child == path[k + 1..]
  {
    LastSlashIsLast(path);
    if Splits(path, parent, child) {
      var n := SplitPlace(path, parent, child);
      hide Splits, LastSlash;
      assert path[n] in path;
      LastIsUnique(path, LastSlash(path).value, n);
    } else if LastSlash(path).Some? {
      SplitHere(path, LastSlash(path).value);
    }
  }

  lemma OthersKeepGraph(rules: Rules, data: Evidence, e: AuditEvent)
    ensures OnCommand(rules, data, e).traversal == data.traversal
    ensures OnResult(data, e).traversal == data.traversal
    ensures OnDisconnect(data, e).traversal == data.traversal
  {
  }

  lemma PathAddsEdge(data: Evidence, e: AuditEvent, parent: string, child: string)
    requires Graph(data.traversal)
    ensures var after := OnPath(data, e).traversal;
            Graph(after) && (Edge(after, parent, child) <==> Edge(data.traversal, parent, child) || Splits(e.path, parent, child))
  {
    OneSplit(e.path, parent, child);
    LastSlashIsLast(e.path);
    hide LastSlash, Splits;
    if e.path == "" { assert !Splits(e.path, parent, child) by { NothingSplits(parent, child); } }
  }

  lemma NothingSplits(parent: string, child: string)
    ensures !Splits("", parent, child)
  {
  }

  lemma HandleTraversal(rules: Rules, data: Evidence, row: LogRow, parent: string, child: string)
    requires Graph(data.traversal)
    ensures var after := Handle(rules, data, row).traversal;
            Graph(after) && (Edge(after, parent, child) <==> Edge(data.traversal, parent, child) || Opens(row, parent, child))
  {
    hide OnCommand, OnResult, OnPath, OnDisconnect, Splits, Graph, Edge;
    OthersKeepGraph(rules, data, row.event);
    PathAddsEdge(data, row.event, parent, child);
  }

  /** The graph of a fold has exactly the edges of the session's file events, each once. */
  lemma {:induction false} FoldTraversal(rules: Rules, log: seq<LogRow>, s: string, upTo: nat, parent: string, child: string)
    ensures var f := FoldTo(rules, log, s, upTo);
            var graph := if f.Some? then f.value.traversal else map[];
            && Graph(graph)
            && (Edge(graph, parent, child) <==>
                exists k | 0 <= k < |log| :: Counts(log[k], s, upTo) && Opens(log[k], parent, child))
    decreases |log|
  {
    hide Handle, Opens, Edge, Counts, Graph;
    if log == [] {
      NoEdges(parent, child);
    } else {
      var front, row := FrontRows(log), log[|log| - 1];
      FoldTraversal(rules, front, s, upTo, parent, child);
      var before := FoldTo(rules, front, s, upTo);
      var data := if before.Some? then before.value else Default(row.event.timestamp);
      HandleTraversal(rules, data, row, parent, child);
      LastOrFrontEdge(log, s, upTo, parent, child);
      assert Counts(row, s, upTo) <==> row.event.session == s && row.id <= upTo by { CountsMeans(row, s, upTo); }
    }
  }

  lemma CountsMeans(row: LogRow, s: string, upTo: nat)
    ensures Counts(row, s, upTo) <==> row.event.session == s && row.id <= upTo
  {
  }

  lemma NoEdges(parent: string, child: string)
    ensures Graph(map[]) && !Edge(map[], parent, child)
  {
  }

  lemma LastOrFrontEdge(log: seq<LogRow>, s: string, upTo: nat, parent: string, child: string)
    requires log != []
    ensures var front, row := FrontRows(log), log[|log| - 1];
            (exists k | 0 <= k < |log| :: Counts(log[k], s, upTo) && Opens(log[k], parent, child)) <==>
            (exists k | 0 <= k < |front| :: Counts(front[k], s, upTo) && Opens(front[k], parent, child)) ||
            (Counts(row, s, upTo) && Opens(row, parent, child))
  {
    hide Opens, Counts;
    var front := FrontRows(log);
    if k :| 0 <= k < |front| && Counts(front[k], s, upTo) && Opens(front[k], parent, child) {
      assert front[k] == log[k];
    }
    if k :| 0 <= k < |log| && Counts(log[k], s, upTo) && Opens(log[k], parent, child) {
      assert k < |front| ==> front[k] == log[k];
    }
  }

  // ---- First flagged command, first event, last disconnect -------------------------------

  /** The first row that counts and has property `p`, or the length of the log. */
  ghost predicate IsFirst(log: seq<LogRow>, s: string, upTo: nat, p: LogRow -> bool, k: nat)
  {
    && k <= |log| && (k < |log| ==> Counts(log[k], s, upTo) && p(log[k]))
    && forall j | 0 <= j < k :: !(Counts(log[j], s, upTo) && p(log[j]))
  }

  ghost predicate IsLast(log: seq<LogRow>, s: string, upTo: nat, p: LogRow -> bool, k: nat)
  {
    && k < |log| && Counts(log[k], s, upTo) && p(log[k])
    && forall j | k < j < |log| :: !(Counts(log[j], s, upTo) && p(log[j]))
  }

  /** What the record must say of detection, if its first flagged row is `k`. */
  ghost predicate DetectionIs(log: seq<LogRow>, data: Evidence, k: nat)
  {
    && (data.detected <==> k < |log|)
    && (k >= |log| ==> data.firstSuspicious.None?)
    && (k < |log| ==> data.firstSuspicious == Get(log[k].event.metadata, "command"))
  }

  lemma OthersKeepDetection(data: Evidence, e: AuditEvent)
    ensures OnResult(data, e).firstSuspicious == data.firstSuspicious && OnResult(data, e).detected == data.detected
    ensures OnPath(data, e).firstSuspicious == data.firstSuspicious && OnPath(data, e).detected == data.detected
  {
  }

  lemma HandleDetects(rules: Rules, data: Evidence, row: LogRow)
    ensures var after := Handle(rules, data, row);
            && (after.detected <==> data.detected || Flagged(rules, row))
            && after.firstSuspicious ==
               (if data.firstSuspicious.None? && Flagged(rules, row) then Get(row.event.metadata, "command")
                else data.firstSuspicious)
  {
    hide LastSlash, FirstWith;
    var e := row.event;
    OthersKeepDetection(data, e);
    if e.operation == "ssh_command" {
      assert Handle(rules, data, row) == OnCommand(rules, data, e).(lastEventId := row.id);
    } else {
      assert !Flagged(rules, row);
    }
  }

  /** A session is marked detected exactly if some command was flagged, and the suspicious
      command on record is the first flagged one. */
  lemma {:induction false} FoldDetects(rules: Rules, log: seq<LogRow>, s: string, upTo: nat) returns (k: nat)
    ensures IsFirst(log, s, upTo, row => Flagged(rules, row), k)
    ensures var f := FoldTo(rules, log, s, upTo);
            if f.Some? then DetectionIs(log, f.value, k) else k == |log|
    decreases |log|
  {
    hide Handle, Flagged;
    if log == [] {
      k := 0;
    } else {
      var front, row := FrontRows(log), log[|log| - 1];
      assert log == front + [row];
      k := FoldDetects(rules, front, s, upTo);
      var before := FoldTo(rules, front, s, upTo);
      var data := if before.Some? then before.value else Default(row.event.timestamp);
      HandleDetects(rules, data, row);
      FlaggedHasCommand(rules, if k < |front| then front[k] else row);
      if k == |front| && !(Counts(row, s, upTo) && Flagged(rules, row)) { k := |log|; }
    }
  }

  lemma FlaggedHasCommand(rules: Rules, row: LogRow)
    ensures Flagged(rules, row) ==> Get(row.event.metadata, "command").Some?
  {
  }

  /** Whole seconds of a span in microseconds, cut off towards zero. */
  predicate Truncated(micros: int, seconds: int)
  {
    && (micros >= 0 ==> seconds * 1000000 <= micros < (seconds + 1) * 1000000)
    && (micros < 0 ==> (seconds - 1) * 1000000 < micros <= seconds * 1000000)
  }

  lemma HandleEnds(rules: Rules, data: Evidence, row: LogRow)
    ensures var after := Handle(rules, data, row);
            && after.startTime == data.startTime
            && (Ends(row) ==> && after.endTime == Some(row.event.timestamp) && after.exitReason == "disconnect"
                              && Truncated(row.event.timestamp - data.startTime, after.duration))
            && (!Ends(row) ==> after.endTime == data.endTime && after.exitReason == data.exitReason
                               && after.duration == data.duration)
  {
  }

  /** The start is the session's first event; end, exit reason and duration are those of its
      last disconnect, or absent without one. */
  lemma {:induction false} FoldEnds(rules: Rules, log: seq<LogRow>, s: string, upTo: nat) returns (first: nat, last: Option<nat>)
    ensures IsFirst(log, s, upTo, row => true, first)
    ensures last.Some? ==> IsLast(log, s, upTo, row => Ends(row), last.value)
    ensures last.None? ==> forall k | 0 <= k < |log| :: !(Counts(log[k], s, upTo) && Ends(log[k]))
    ensures var f := FoldTo(rules, log, s, upTo);
            if f.None? then first == |log| else
              && first < |log| && f.value.startTime == log[first].event.timestamp
              && f.value.endTime == (if last.Some? then Some(log[last.value].event.timestamp) else None)
              && f.value.exitReason == (if last.Some? then "disconnect" else "active")
              && (last.None? ==> f.value.duration == 0)
              && (last.Some? ==> Truncated(log[last.value].event.timestamp - f.value.startTime, f.value.duration))
    decreases |log|
  {
    hide Handle, Ends, Truncated;
    if log == [] {
      first, last := 0, None;
    } else {
      var front, row := FrontRows(log), log[|log| - 1];
      assert log == front + [row];
      first, last := FoldEnds(rules, front, s, upTo);
      var before := FoldTo(rules, front, s, upTo);
      HandleEnds(rules, if before.Some? then before.value else Default(row.event.timestamp), row);
      if first == |front| && !Counts(row, s, upTo) { first := |log|; }
      if Counts(row, s, upTo) && Ends(row) { last := Some(|log| - 1); }
    }
  }

  // ---- Results -----------------------------------------------------------------------------

  /** `k` is the command a result with this id belongs to; the length if there is none. */
  ghost predicate Addressee(commands: seq<Command>, id: string, k: nat)
  {
    && k <= |commands| && (k < |commands| ==> commands[k].commandId == Some(id))
    && forall j | 0 <= j < k :: commands[j].commandId != Some(id)
  }

  lemma {:induction false} FirstIsAddressee(commands: seq<Command>, id: string, k: nat)
    requires Addressee(commands, id, k)
    ensures FirstWith(commands, id) == k
    decreases k
  {
    if k > 0 {
      assert commands[0].commandId != Some(id);
      FirstIsAddressee(commands[1..], id, k - 1);
    }
  }

  /** A result completes exactly the first command with its id: the reported fields it
      carries replace that command's, all else stays; without such a command it is void. */
  lemma ResultCompletes(rules: Rules, data: Evidence, row: LogRow, id: string, k: nat)
    requires row.event.operation == "ssh_command_result" && Get(row.event.metadata, "command_id") == Some(id) && id != ""
    requires Addressee(data.commands, id, k)
    ensures var after := Handle(rules, data, row);
            if k == |data.commands| then after == data.(lastEventId := row.id)
            else
              var c, d := data.commands[k], after.commands[k];
              && |after.commands| == |data.commands| && (forall j | 0 <= j < |data.commands| && j != k :: after.commands[j] == data.commands[j])
              && d == c.(fields := d.fields, completedAt := Some(row.event.timestamp))
              && (forall key: string ::
                    if key in ["outcome", "exit_status", "server_elapsed_seconds", "response_bytes", "reason"]
                       && key in row.event.metadata then
                      key in d.fields && d.fields[key] == row.event.metadata[key]
                    else (key in d.fields <==> key in c.fields) && (key in c.fields ==> d.fields[key] == c.fields[key]))
              && after.lastSuccess == (if Get(row.event.metadata, "outcome") == Some("emulated_success")
                                       then Some(row.event.timestamp) else data.lastSuccess)
  {
    hide OnCommand, OnPath, OnDisconnect;
    FirstIsAddressee(data.commands, id, k);
  }
}
