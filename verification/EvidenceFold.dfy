/** What the collector makes of a session's audit events, one event after the other. */
module EvidenceFold {
  import opened Wrappers
  import opened AuditSpool

  /** A row of `audit_log`: the database id the poller orders by, and the event. */
  datatype LogRow = LogRow(id: nat, event: AuditEvent)

  datatype Analysis = Analysis(risk: int, techniques: seq<string>, signatures: seq<string>)

  /** The command analyser and threat library, which the fold consults but never changes. */
  datatype Rules = Rules(analyze: string -> Analysis)

  datatype Command = Command(
    timestamp: int,
    command: string,
    commandId: Option<string>,
    analysis: Analysis,
    fields: map<string, string>,
    completedAt: Option<int>)

  datatype Evidence = Evidence(
    startTime: int,
    endTime: Option<int>,
    duration: int,
    detected: bool,
    exitReason: string,
    firstSuspicious: Option<string>,
    lastSuccess: Option<int>,
    commands: seq<Command>,
    visitedFiles: seq<string>,
    traversal: map<string, seq<string>>,
    lastEventId: nat)

  /** The record of a session without saved progress; its start is the event at hand. */
  function Default(timestamp: int): Evidence
  {
    Evidence(timestamp, None, 0, false, "active", None, None, [], [], map[], 0)
  }

  function Get(m: map<string, string>, key: string): Option<string>
  {
    if key in m then Some(m[key]) else None
  }

  const RESULT_KEYS: seq<string> := ["outcome", "exit_status", "server_elapsed_seconds", "response_bytes", "reason"]

  function Restrict(m: map<string, string>): map<string, string>
  {
    map k | k in m && k in RESULT_KEYS :: m[k]
  }

  /** `int(timedelta.total_seconds())` for timestamps in microseconds. */
  function WholeSeconds(micros: int): int
  {
    if micros >= 0 then micros / 1000000 else -(-micros / 1000000)
  }

  /** Position of the first command with this id, or the length if there is none. */
  function FirstWith(commands: seq<Command>, id: string): nat
    decreases |commands|
  {
    if commands == [] || commands[0].commandId == Some(id) then 0 else 1 + FirstWith(commands[1..], id)
  }

  lemma {:induction false} FirstWithIsFirst(commands: seq<Command>, id: string)
    ensures var k := FirstWith(commands, id);
            && k <= |commands|
            && (k < |commands| ==> commands[k].commandId == Some(id))
            && (forall j | 0 <= j < k :: commands[j].commandId != Some(id))
    decreases |commands|
  {
    if commands != [] && commands[0].commandId != Some(id) {
      FirstWithIsFirst(commands[1..], id);
      forall j | 0 <= j < FirstWith(commands, id) ensures commands[j].commandId != Some(id) {
        if j > 0 { assert commands[j] == commands[1..][j - 1]; }
      }
    }
  }

  function OnCommand(rules: Rules, data: Evidence, e: AuditEvent): Evidence
  {
    var cmd := Get(e.metadata, "command");
    if !Truthy(cmd) then data
    else
      var analysis := rules.analyze(cmd.value);
      var added := data.(commands := data.commands +
        [Command(e.timestamp, cmd.value, Get(e.metadata, "command_id"), analysis, map["outcome" := "unknown"], None)]);
      if analysis.risk > 0 || analysis.signatures != [] then
        added.(firstSuspicious := if data.firstSuspicious.Some? then data.firstSuspicious else cmd, detected := true)
      else added
  }

  function Completed(c: Command, e: AuditEvent): Command
  {
    c.(fields := c.fields + Restrict(e.metadata), completedAt := Some(e.timestamp))
  }

  function OnResult(data: Evidence, e: AuditEvent): Evidence
  {
    var id := Get(e.metadata, "command_id");
    if !Truthy(id) then data
    else
      var k := FirstWith(data.commands, id.value);
      if k >= |data.commands| then data
      else
        data.(commands := data.commands[k := Completed(data.commands[k], e)],
              lastSuccess := if Get(e.metadata, "outcome") == Some("emulated_success") then Some(e.timestamp)
                             else data.lastSuccess)
  }

  /** `path.rsplit('/', 1)`: the text before and after the last slash. */
  function LastSlash(path: string): Option<nat>
    decreases |path|
  {
    if path == "" then None
    else if path[|path| - 1] == '/' then Some(|path| - 1)
    else LastSlash(path[..|path| - 1])
  }

  function OnPath(data: Evidence, e: AuditEvent): Evidence
  {
    if e.path == "" then data
    else
      var visited := if e.path in data.visitedFiles then data.visitedFiles else data.visitedFiles + [e.path];
      var slash := LastSlash(e.path);
      if slash.None? || slash.value >= |e.path| then data.(visitedFiles := visited)
      else
        var parent := if slash.value == 0 then "/" else e.path[..slash.value];
        var child := e.path[slash.value + 1..];
        var children := if parent in data.traversal then data.traversal[parent] else [];
        data.(visitedFiles := visited,
              traversal := data.traversal[parent := if child in children then children else children + [child]])
  }

  function OnDisconnect(data: Evidence, e: AuditEvent): Evidence
  {
    data.(endTime := Some(e.timestamp), duration := WholeSeconds(e.timestamp - data.startTime), exitReason := "disconnect")
  }

  function Handle(rules: Rules, data: Evidence, row: LogRow): Evidence
  {
    var e := row.event;
    var next :=
      if e.operation == "ssh_command" then OnCommand(rules, data, e)
      else if e.operation == "ssh_command_result" then OnResult(data, e)
      else if e.operation in ["read", "create", "getattr", "readdir"] then OnPath(data, e)
      else if e.operation == "ssh_disconnect" then OnDisconnect(data, e)
      else data;
    next.(lastEventId := row.id)
  }

  /** The same handler as the collector runs it, updating the record in place. */
  method HandleInPlace(rules: Rules, data: Evidence, row: LogRow) returns (record: Evidence)
    ensures record == Handle(rules, data, row)
  {
    var e := row.event;
    record := data.(lastEventId := row.id);
    if e.operation == "ssh_command" {
      var cmd := Get(e.metadata, "command");
      if Truthy(cmd) {
        var analysis := rules.analyze(cmd.value);
        record := record.(commands := record.commands +
          [Command(e.timestamp, cmd.value, Get(e.metadata, "command_id"), analysis, map["outcome" := "unknown"], None)]);
        if analysis.risk > 0 || analysis.signatures != [] {
          if record.firstSuspicious.None? { record := record.(firstSuspicious := cmd); }
          record := record.(detected := true);
        }
      }
    } else if e.operation == "ssh_command_result" {
      var id := Get(e.metadata, "command_id");
      if Truthy(id) {
        var k := 0;
        while k < |data.commands| && data.commands[k].commandId != id
          invariant 0 <= k <= |data.commands|
          invariant FirstWith(data.commands, id.value) == k + FirstWith(data.commands[k..], id.value)
        {
          assert data.commands[k..][1..] == data.commands[k + 1..];
          k := k + 1;
        }
        if k < |data.commands| {
          record := record.(commands := record.commands[k := Completed(record.commands[k], e)]);
          if Get(e.metadata, "outcome") == Some("emulated_success") {
            record := record.(lastSuccess := Some(e.timestamp));
          }
        }
      }
    } else if e.operation in ["read", "create", "getattr", "readdir"] {
      record := OnPath(record, e);
    } else if e.operation == "ssh_disconnect" {
      record := OnDisconnect(record, e);
    }
  }

  // ---- The fold over a log ---------------------------------------------------------

  function FrontRows(log: seq<LogRow>): seq<LogRow> requires log != [] { log[..|log| - 1] }

  /** The record after all rows of session `s` with id at most `upTo`; None if there
      are no such rows. */
  function FoldTo(rules: Rules, log: seq<LogRow>, s: string, upTo: nat): Option<Evidence>
    decreases |log|
  {
    if log == [] then None
    else
      var before := FoldTo(rules, FrontRows(log), s, upTo);
      var row := log[|log| - 1];
      if row.event.session != s || row.id > upTo then before
      else Some(Handle(rules, if before.Some? then before.value else Default(row.event.timestamp), row))
  }

  /** The commands submitted in session `s`, in order. */
  function Submitted(events: seq<AuditEvent>, s: string): seq<(int, string, Option<string>)>
    decreases |events|
  {
    if events == [] then []
    else
      var e := events[|events| - 1];
      var before := Submitted(events[..|events| - 1], s);
      if e.session == s && e.operation == "ssh_command" && Truthy(Get(e.metadata, "command")) then
        before + [(e.timestamp, e.metadata["command"], Get(e.metadata, "command_id"))]
      else before
  }

  function Listed(data: Evidence): seq<(int, string, Option<string>)>
  {
    seq(|data.commands|, k requires 0 <= k < |data.commands| =>
      (data.commands[k].timestamp, data.commands[k].command, data.commands[k].commandId))
  }

  function RowEvents(log: seq<LogRow>): seq<AuditEvent>
  {
    seq(|log|, k requires 0 <= k < |log| => log[k].event)
  }

  ghost predicate Ascending(log: seq<LogRow>)
  {
    && (forall j, k | 0 <= j < k < |log| :: log[j].id < log[k].id)
    && (forall k | 0 <= k < |log| :: log[k].id >= 1)
  }

  /** Only a new command changes the list of submitted commands; results and file events
      never add, drop or reorder one. */
  lemma HandleLists(rules: Rules, data: Evidence, row: LogRow)
    ensures var e := row.event;
            Listed(Handle(rules, data, row)) ==
            if e.operation == "ssh_command" && Truthy(Get(e.metadata, "command")) then
              Listed(data) + [(e.timestamp, e.metadata["command"], Get(e.metadata, "command_id"))]
            else Listed(data)
  {
    var e := row.event;
    if e.operation == "ssh_command_result" {
      var id := Get(e.metadata, "command_id");
      if Truthy(id) { FirstWithIsFirst(data.commands, id.value); }
    }
  }

  /** The commands of a fold are exactly those submitted so far, in order, none twice. */
  lemma {:induction false} FoldLists(rules: Rules, log: seq<LogRow>, s: string, upTo: nat)
    requires Ascending(log)
    requires forall k | 0 <= k < |log| :: log[k].id <= upTo
    ensures var f := FoldTo(rules, log, s, upTo);
            (if f.Some? then Listed(f.value) else []) == Submitted(RowEvents(log), s)
    ensures FoldTo(rules, log, s, upTo).None? ==> forall k | 0 <= k < |log| :: log[k].event.session != s
    decreases |log|
  {
    hide Handle;
    if log != [] {
      var front := FrontRows(log);
      FoldLists(rules, front, s, upTo);
      assert RowEvents(front) == RowEvents(log)[..|log| - 1];
      var row := log[|log| - 1];
      assert RowEvents(log)[|log| - 1] == row.event;
      if row.event.session == s {
        var before := FoldTo(rules, front, s, upTo);
        HandleLists(rules, if before.Some? then before.value else Default(row.event.timestamp), row);
      }
    }
  }
}
