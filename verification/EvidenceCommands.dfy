/** What the record says of each command, read off the log itself: the row that submitted
    it, and of the results addressed to it the last one that carries a field. */
module EvidenceCommands {
  import opened Wrappers
  import opened AuditSpool
  import opened EvidenceFold
  import opened EvidenceLaws

  predicate Submits(row: LogRow)
  {
    var e := row.event;
    e.operation == "ssh_command" && "command" in e.metadata && e.metadata["command"] != ""
  }

  predicate Reports(row: LogRow)
  {
    var e := row.event;
    e.operation == "ssh_command_result" && "command_id" in e.metadata && e.metadata["command_id"] != ""
  }

  predicate Reported(key: string)
  {
    key == "outcome" || key == "exit_status" || key == "server_elapsed_seconds" || key == "response_bytes" || key == "reason"
  }

  /** No earlier command has the id of command `k`. */
  predicate Owns(commands: seq<Command>, k: nat)
    requires k < |commands|
  {
    forall j | 0 <= j < k :: commands[j].commandId != commands[k].commandId
  }

  /** The row is a result of the session that is addressed to command `k`. */
  predicate Answers(row: LogRow, s: string, upTo: nat, commands: seq<Command>, k: nat)
    requires k < |commands|
  {
    && row.event.session == s && row.id <= upTo
    && Reports(row) && Owns(commands, k) && commands[k].commandId == Some(row.event.metadata["command_id"])
  }

  predicate Carries(row: LogRow, key: string) { Reported(key) && key in row.event.metadata }

  /** As submitted by row `a`. */
  ghost predicate SubmittedBy(rules: Rules, row: LogRow, s: string, upTo: nat, c: Command)
  {
    && row.event.session == s && row.id <= upTo && Submits(row)
    && c.timestamp == row.event.timestamp && c.command == row.event.metadata["command"]
    && c.commandId == (if "command_id" in row.event.metadata then Some(row.event.metadata["command_id"]) else None)
    && c.analysis == rules.analyze(c.command)
  }

  /** The last answer after row `a` that carries the key gave the field its value; without
      one it is as first written. */
  ghost predicate FieldIs(log: seq<LogRow>, s: string, upTo: nat, commands: seq<Command>, k: nat, a: nat, key: string)
    requires k < |commands|
  {
    var fields := commands[k].fields;
    || (exists r | a < r < |log| ::
          && Answers(log[r], s, upTo, commands, k) && Carries(log[r], key)
          && (forall q | r < q < |log| :: !(Answers(log[q], s, upTo, commands, k) && Carries(log[q], key)))
          && key in fields && fields[key] == log[r].event.metadata[key])
    || (&& (forall q | a < q < |log| :: !(Answers(log[q], s, upTo, commands, k) && Carries(log[q], key)))
        && (key in fields <==> key == "outcome") && (key in fields ==> fields[key] == "unknown"))
  }

  /** Completed at the last answer, if there is one. */
  ghost predicate CompletionIs(log: seq<LogRow>, s: string, upTo: nat, commands: seq<Command>, k: nat, a: nat)
    requires k < |commands|
  {
    var completed := commands[k].completedAt;
    || (exists r | a < r < |log| ::
          && Answers(log[r], s, upTo, commands, k)
          && (forall q | r < q < |log| :: !Answers(log[q], s, upTo, commands, k))
          && completed == Some(log[r].event.timestamp))
    || ((forall q | a < q < |log| :: !Answers(log[q], s, upTo, commands, k)) && completed.None?)
  }

  ghost predicate CommandIs(rules: Rules, log: seq<LogRow>, s: string, upTo: nat, commands: seq<Command>, k: nat, a: nat)
    requires k < |commands|
  {
    && a < |log| && SubmittedBy(rules, log[a], s, upTo, commands[k])
    && (forall key: string :: FieldIs(log, s, upTo, commands, k, a, key))
    && CompletionIs(log, s, upTo, commands, k, a)
  }

  // ---- One more row ---------------------------------------------------------------------------

  lemma SubmissionAppends(rules: Rules, data: Evidence, row: LogRow)
    requires Submits(row)
    ensures var after, c := Handle(rules, data, row).commands, Last(Handle(rules, data, row).commands);
            && after == data.commands + [c.value] && c.Some?
            && SubmittedBy(rules, row, row.event.session, row.id, c.value)
            && c.value.fields == map["outcome" := "unknown"] && c.value.completedAt == None
  {
    hide OnResult, OnPath, OnDisconnect;
  }

  function Last(commands: seq<Command>): Option<Command>
  {
    if commands == [] then None else Some(commands[|commands| - 1])
  }

  /** An answer changes its command only, in completion time and the fields it carries. */
  ghost predicate Answered(c: Command, d: Command, e: AuditEvent)
  {
    && d == c.(fields := d.fields, completedAt := Some(e.timestamp))
    && forall key: string ::
         if Reported(key) && key in e.metadata then key in d.fields && d.fields[key] == e.metadata[key]
         else (key in d.fields <==> key in c.fields) && (key in c.fields ==> d.fields[key] == c.fields[key])
  }

  lemma OthersKeep(rules: Rules, data: Evidence, row: LogRow)
    requires !Submits(row) && !Reports(row)
    ensures Handle(rules, data, row).commands == data.commands
  {
  }

  lemma AnswerChanges(rules: Rules, data: Evidence, row: LogRow, k: nat)
    requires Reports(row) && k < |data.commands|
    ensures var after := Handle(rules, data, row).commands;
            && |after| == |data.commands|
            && (if Answers(row, row.event.session, row.id, data.commands, k) then Answered(data.commands[k], after[k], row.event)
                else after[k] == data.commands[k])
  {
    var id := row.event.metadata["command_id"];
    var n := FirstWith(data.commands, id);
    FirstWithIsFirst(data.commands, id);
    ResultCompletes(rules, data, row, id, n);
    if Answers(row, row.event.session, row.id, data.commands, k) { assert n == k; }
  }

  /** Commands keep their ids and places, so the same rows answer them. */
  predicate SameIds(before: seq<Command>, after: seq<Command>)
  {
    |before| <= |after| && forall k | 0 <= k < |before| :: after[k].commandId == before[k].commandId
  }

  lemma SameAnswers(before: seq<Command>, after: seq<Command>, k: nat, s: string, upTo: nat)
    requires SameIds(before, after) && k < |before|
    ensures forall row: LogRow :: Answers(row, s, upTo, after, k) <==> Answers(row, s, upTo, before, k)
  {
    hide Reports;
    assert Owns(after, k) <==> Owns(before, k);
  }

  /** A row that does not answer the command leaves what is said of it true. */
  lemma Unanswered(rules: Rules, front: seq<LogRow>, row: LogRow, s: string, upTo: nat,
                   before: seq<Command>, after: seq<Command>, k: nat, a: nat)
    requires k < |before| && SameIds(before, after) && after[k] == before[k]
    requires CommandIs(rules, front, s, upTo, before, k, a) && !Answers(row, s, upTo, before, k)
    ensures CommandIs(rules, front + [row], s, upTo, after, k, a)
  {
    hide Answers, Carries, SubmittedBy;
    SameAnswers(before, after, k, s, upTo);
    var log := front + [row];
    assert forall r | 0 <= r < |front| :: log[r] == front[r];
    forall key: string ensures FieldIs(log, s, upTo, after, k, a, key) {
      assert FieldIs(front, s, upTo, before, k, a, key);
      FieldStays(front, row, s, upTo, before, after, k, a, key);
    }
    assert log[a] == front[a];
  }

  lemma FieldStays(front: seq<LogRow>, row: LogRow, s: string, upTo: nat,
                   before: seq<Command>, after: seq<Command>, k: nat, a: nat, key: string)
    requires k < |before| && SameIds(before, after)
    requires (key in after[k].fields <==> key in before[k].fields)
    requires key in before[k].fields ==> after[k].fields[key] == before[k].fields[key]
    requires FieldIs(front, s, upTo, before, k, a, key) && !(Answers(row, s, upTo, before, k) && Carries(row, key))
    ensures FieldIs(front + [row], s, upTo, after, k, a, key)
  {
    hide Answers, Reported;
    SameAnswers(before, after, k, s, upTo);
    var log := front + [row];
    assert forall r | 0 <= r < |front| :: log[r] == front[r];
    if r :| a < r < |front| && Answers(front[r], s, upTo, before, k) && Carries(front[r], key)
            && (forall q | r < q < |front| :: !(Answers(front[q], s, upTo, before, k) && Carries(front[q], key)))
            && key in before[k].fields && before[k].fields[key] == front[r].event.metadata[key] {
      assert log[r] == front[r];
    }
  }

  /** An answer becomes the last one for the fields it carries. */
  lemma NowAnswered(rules: Rules, front: seq<LogRow>, row: LogRow, s: string, upTo: nat,
                    before: seq<Command>, after: seq<Command>, k: nat, a: nat)
    requires k < |before| && SameIds(before, after) && Answered(before[k], after[k], row.event)
    requires CommandIs(rules, front, s, upTo, before, k, a) && Answers(row, s, upTo, before, k)
    ensures CommandIs(rules, front + [row], s, upTo, after, k, a)
  {
    SameAnswers(before, after, k, s, upTo);
    hide Answers, Reported, SubmittedBy;
    var log := front + [row];
    assert log[|front|] == row && log[a] == front[a];
    forall key: string ensures FieldIs(log, s, upTo, after, k, a, key) {
      assert FieldIs(front, s, upTo, before, k, a, key);
      if !Carries(row, key) { FieldStays(front, row, s, upTo, before, after, k, a, key); }
    }
    assert SubmittedBy(rules, log[a], s, upTo, after[k]) by { StillSubmitted(rules, log[a], s, upTo, before[k], after[k]); }
  }

  lemma StillSubmitted(rules: Rules, row: LogRow, s: string, upTo: nat, c: Command, d: Command)
    requires SubmittedBy(rules, row, s, upTo, c) && d == c.(fields := d.fields, completedAt := d.completedAt)
    ensures SubmittedBy(rules, row, s, upTo, d)
  {
  }

  lemma NewCommand(rules: Rules, front: seq<LogRow>, row: LogRow, s: string, upTo: nat, commands: seq<Command>)
    requires commands != [] && SubmittedBy(rules, row, s, upTo, commands[|commands| - 1])
    requires commands[|commands| - 1].fields == map["outcome" := "unknown"] && commands[|commands| - 1].completedAt.None?
    ensures CommandIs(rules, front + [row], s, upTo, commands, |commands| - 1, |front|)
  {
    hide SubmittedBy;
    assert (front + [row])[|front|] == row;
  }

  /** A row of another session, or too new, answers nobody. */
  lemma NotCounted(row: LogRow, s: string, upTo: nat, commands: seq<Command>, k: nat)
    requires k < |commands| && !Counts(row, s, upTo)
    ensures !Answers(row, s, upTo, commands, k)
  {
  }

  lemma StepCommands(rules: Rules, front: seq<LogRow>, row: LogRow, s: string, upTo: nat, data: Evidence, k: nat, a: nat)
    requires Counts(row, s, upTo) && k < |data.commands| && CommandIs(rules, front, s, upTo, data.commands, k, a)
    ensures var after := Handle(rules, data, row).commands;
            k < |after| && CommandIs(rules, front + [row], s, upTo, after, k, a)
  {
    hide Handle, CommandIs, SubmittedBy;
    var before, after := data.commands, Handle(rules, data, row).commands;
    if Submits(row) {
      SubmissionAppends(rules, data, row);
      Unanswered(rules, front, row, s, upTo, before, after, k, a);
    } else if Reports(row) {
      forall j | 0 <= j < |before| ensures |after| == |before| && after[j].commandId == before[j].commandId {
        AnswerChanges(rules, data, row, j);
      }
      AnswerChanges(rules, data, row, k);
      if Answers(row, s, upTo, before, k) {
        NowAnswered(rules, front, row, s, upTo, before, after, k, a);
      } else {
        Unanswered(rules, front, row, s, upTo, before, after, k, a);
      }
    } else {
      OthersKeep(rules, data, row);
      Unanswered(rules, front, row, s, upTo, before, after, k, a);
    }
  }

  /** `places` are the rows that submitted the commands, in order. */
  ghost predicate Placed(log: seq<LogRow>, s: string, upTo: nat, places: seq<nat>)
  {
    && (forall i, j | 0 <= i < j < |places| :: places[i] < places[j])
    && (forall i | 0 <= i < |places| :: places[i] < |log|)
    && (forall a | 0 <= a < |log| && Counts(log[a], s, upTo) && Submits(log[a]) :: a in places)
  }

  lemma PlacedMore(front: seq<LogRow>, row: LogRow, s: string, upTo: nat, places: seq<nat>)
    requires Placed(front, s, upTo, places)
    ensures Placed(front + [row], s, upTo, if Counts(row, s, upTo) && Submits(row) then places + [|front|] else places)
  {
    hide Counts, Submits;
    var log := front + [row];
    var more := if Counts(row, s, upTo) && Submits(row) then places + [|front|] else places;
    assert forall r | 0 <= r < |front| :: log[r] == front[r];
    forall a | 0 <= a < |log| && Counts(log[a], s, upTo) && Submits(log[a]) ensures a in more {
      if a < |front| {
        var i :| 0 <= i < |places| && places[i] == a;
        assert more[i] == a;
      } else {
        assert more[|places|] == a;
      }
    }
  }

  /** The record has one command for each submission of the session, in order; each says
      what its submission said, and of its results what the last one carrying it said. */
  lemma {:induction false} FoldCommands(rules: Rules, log: seq<LogRow>, s: string, upTo: nat) returns (places: seq<nat>)
    ensures var f := FoldTo(rules, log, s, upTo);
            var commands := if f.Some? then f.value.commands else [];
            && |places| == |commands| && Placed(log, s, upTo, places)
            && forall k | 0 <= k < |commands| :: CommandIs(rules, log, s, upTo, commands, k, places[k])
    decreases |log|
  {
    hide Handle, Counts, Submits, CommandIs, SubmittedBy, Placed;
    if log == [] {
      places := [];
      assert Placed(log, s, upTo, places) by { NonePlaced(s, upTo); }
    } else {
      var front, row := FrontRows(log), log[|log| - 1];
      assert log == front + [row];
      places := FoldCommands(rules, front, s, upTo);
      PlacedMore(front, row, s, upTo, places);
      CountsMeans(row, s, upTo);
      var before := FoldTo(rules, front, s, upTo);
      var data := if before.Some? then before.value else Default(row.event.timestamp);
      if Counts(row, s, upTo) {
        places := FoldStep(rules, front, row, s, upTo, data, places);
      } else {
        forall k | 0 <= k < |places| ensures before.Some? && CommandIs(rules, log, s, upTo, before.value.commands, k, places[k]) {
          NotCounted(row, s, upTo, before.value.commands, k);
          Unanswered(rules, front, row, s, upTo, before.value.commands, before.value.commands, k, places[k]);
        }
      }
    }
  }

  lemma NonePlaced(s: string, upTo: nat)
    ensures Placed([], s, upTo, [])
  {
  }

  lemma FoldStep(rules: Rules, front: seq<LogRow>, row: LogRow, s: string, upTo: nat, data: Evidence, places: seq<nat>)
    returns (more: seq<nat>)
    requires Counts(row, s, upTo) && |places| == |data.commands|
    requires forall k | 0 <= k < |data.commands| :: CommandIs(rules, front, s, upTo, data.commands, k, places[k])
    ensures more == if Submits(row) then places + [|front|] else places
    ensures var after := Handle(rules, data, row).commands;
            |more| == |after| && forall k | 0 <= k < |after| :: CommandIs(rules, front + [row], s, upTo, after, k, more[k])
  {
    hide Handle, CommandIs;
    var after := Handle(rules, data, row).commands;
    more := if Submits(row) then places + [|front|] else places;
    forall k | 0 <= k < |places| ensures k < |after| && CommandIs(rules, front + [row], s, upTo, after, k, places[k]) {
      StepCommands(rules, front, row, s, upTo, data, k, places[k]);
    }
    if Submits(row) {
      SubmissionAppends(rules, data, row);
      NewCommand(rules, front, row, s, upTo, after);
    } else if Reports(row) {
      AnswerKeepsLength(rules, data, row);
    } else {
      OthersKeep(rules, data, row);
    }
  }

  lemma AnswerKeepsLength(rules: Rules, data: Evidence, row: LogRow)
    requires Reports(row)
    ensures |Handle(rules, data, row).commands| == |data.commands|
  {
    hide OnCommand, OnPath, OnDisconnect;
  }

  // ---- The last success ---------------------------------------------------------------------------

  /** Row `r` reports the success of a command submitted before it. */
  ghost predicate Succeeds(log: seq<LogRow>, s: string, upTo: nat, r: nat)
    requires r < |log|
  {
    && Counts(log[r], s, upTo) && Reports(log[r])
    && "outcome" in log[r].event.metadata && log[r].event.metadata["outcome"] == "emulated_success"
    && exists a | 0 <= a < r :: Names(log, s, upTo, a, log[r].event.metadata["command_id"])
  }

  /** Row `a` submits a command with this id. */
  predicate Names(log: seq<LogRow>, s: string, upTo: nat, a: nat, id: string)
    requires a < |log|
  {
    && Counts(log[a], s, upTo) && Submits(log[a])
    && "command_id" in log[a].event.metadata && log[a].event.metadata["command_id"] == id
  }

  lemma NamedIsListed(rules: Rules, log: seq<LogRow>, s: string, upTo: nat, id: string)
    ensures var f := FoldTo(rules, log, s, upTo);
            var commands := if f.Some? then f.value.commands else [];
            (exists k | 0 <= k < |commands| :: commands[k].commandId == Some(id)) <==>
            exists a | 0 <= a < |log| :: Names(log, s, upTo, a, id)
  {
    var f := FoldTo(rules, log, s, upTo);
    var commands := if f.Some? then f.value.commands else [];
    hide FoldTo, Submits, FieldIs, CompletionIs;
    var places := FoldCommands(rules, log, s, upTo);
    if k :| 0 <= k < |commands| && commands[k].commandId == Some(id) {
      assert CommandIs(rules, log, s, upTo, commands, k, places[k]);
      assert Names(log, s, upTo, places[k], id);
    }
    if a :| 0 <= a < |log| && Names(log, s, upTo, a, id) {
      assert a in places;
      var k :| 0 <= k < |places| && places[k] == a;
      assert CommandIs(rules, log, s, upTo, commands, k, places[k]);
    }
  }

  lemma HandleSuccess(rules: Rules, data: Evidence, row: LogRow)
    ensures var e := row.event;
            Handle(rules, data, row).lastSuccess ==
            if Reports(row) && (exists k | 0 <= k < |data.commands| :: data.commands[k].commandId == Some(e.metadata["command_id"]))
               && "outcome" in e.metadata && e.metadata["outcome"] == "emulated_success" then Some(e.timestamp)
            else data.lastSuccess
  {
    var e := row.event;
    if Reports(row) {
      var id := e.metadata["command_id"];
      FirstWithIsFirst(data.commands, id);
      hide FirstWith;
      ResultCompletes(rules, data, row, id, FirstWith(data.commands, id));
    } else {
      OthersKeepSuccess(rules, data, row);
    }
  }

  lemma OthersKeepSuccess(rules: Rules, data: Evidence, row: LogRow)
    requires !Reports(row)
    ensures Handle(rules, data, row).lastSuccess == data.lastSuccess
  {
  }

  lemma SucceedsEarlier(front: seq<LogRow>, row: LogRow, s: string, upTo: nat, r: nat)
    requires r < |front|
    ensures Succeeds(front + [row], s, upTo, r) <==> Succeeds(front, s, upTo, r)
  {
    hide Counts, Submits;
    var log := front + [row];
    assert forall a | 0 <= a < |front| :: log[a] == front[a];
    if Succeeds(log, s, upTo, r) {
      var a :| 0 <= a < r && Names(log, s, upTo, a, log[r].event.metadata["command_id"]);
      assert Names(front, s, upTo, a, front[r].event.metadata["command_id"]);
    }
    if Succeeds(front, s, upTo, r) {
      var a :| 0 <= a < r && Names(front, s, upTo, a, front[r].event.metadata["command_id"]);
      assert Names(log, s, upTo, a, log[r].event.metadata["command_id"]);
    }
  }

  lemma SucceedsNow(front: seq<LogRow>, row: LogRow, s: string, upTo: nat)
    ensures Succeeds(front + [row], s, upTo, |front|) <==>
            && Counts(row, s, upTo) && Reports(row)
            && "outcome" in row.event.metadata && row.event.metadata["outcome"] == "emulated_success"
            && exists a | 0 <= a < |front| :: Names(front, s, upTo, a, row.event.metadata["command_id"])
  {
    hide Counts, Submits;
    var log := front + [row];
    assert log[|front|] == row && forall a | 0 <= a < |front| :: log[a] == front[a];
    if Succeeds(log, s, upTo, |front|) {
      var a :| 0 <= a < |front| && Names(log, s, upTo, a, row.event.metadata["command_id"]);
      assert Names(front, s, upTo, a, row.event.metadata["command_id"]);
    }
    if Reports(row) && (exists a | 0 <= a < |front| :: Names(front, s, upTo, a, row.event.metadata["command_id"])) {
      var a :| 0 <= a < |front| && Names(front, s, upTo, a, row.event.metadata["command_id"]);
      assert Names(log, s, upTo, a, row.event.metadata["command_id"]);
    }
  }

  /** The last success on record is the time of the last result that reported one for a
      command submitted before it. */
  lemma {:induction false} FoldSuccess(rules: Rules, log: seq<LogRow>, s: string, upTo: nat) returns (last: Option<nat>)
    ensures last.Some? ==> last.value < |log| && Succeeds(log, s, upTo, last.value)
    ensures forall r | 0 <= r < |log| && Succeeds(log, s, upTo, r) :: last.Some? && r <= last.value
    ensures var f := FoldTo(rules, log, s, upTo);
            f.Some? ==> f.value.lastSuccess == if last.Some? then Some(log[last.value].event.timestamp) else None
    ensures FoldTo(rules, log, s, upTo).None? ==> last.None?
    decreases |log|
  {
    if log == [] {
      last := None;
    } else {
      var front, row := FrontRows(log), log[|log| - 1];
      assert log == front + [row];
      last := FoldSuccess(rules, front, s, upTo);
      var before := FoldTo(rules, front, s, upTo);
      var data := if before.Some? then before.value else Default(row.event.timestamp);
      HandleSuccess(rules, data, row);
      if Reports(row) { NamedIsListed(rules, front, s, upTo, row.event.metadata["command_id"]); }
      hide Handle, Reports, Submits, Succeeds, Names;
      CountsMeans(row, s, upTo);
      SucceedsNow(front, row, s, upTo);
      forall r | 0 <= r < |front| ensures Succeeds(log, s, upTo, r) <==> Succeeds(front, s, upTo, r) {
        SucceedsEarlier(front, row, s, upTo, r);
      }
      if Succeeds(log, s, upTo, |front|) { last := Some(|front|); }
    }
  }
}
