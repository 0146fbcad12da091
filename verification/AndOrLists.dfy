/** The dispatcher's skip loop against the shell's own meaning of lists: AND-OR lists
    associate to the left (section 2.9.3 of POSIX.1-2017, Shell Command Language). */
module AndOrLists {
  import opened Wrappers
  import opened ShellParser

  const MAX_PIPELINES: nat := 64
  const MAX_IO_BYTES: nat := 1024 * 1024
  const COMMAND_LIMIT := "bash: command limit exceeded\n"
  const OUTPUT_LIMIT := "bash: output limit exceeded\n"

  /** What running something leaves: the session's world, a status, and decoded output. */
  datatype Ran<W> = Ran(world: W, code: int, text: string)
  type Executor<!W> = (Pipeline, W) -> Ran<W>

  // ---- Meaning ------------------------------------------------------------------------------

  /** `Always` stands for what a leading `&&` or `||` finds on its left: status 0. */
  datatype AndOr =
    | Always
    | Single(pipeline: Pipeline)
    | And(left: AndOr, pipeline: Pipeline)
    | Or(left: AndOr, pipeline: Pipeline)

  function Then<W>(exec: Executor<W>, before: Ran<W>, p: Pipeline): Ran<W>
  {
    var r := exec(p, before.world);
    Ran(r.world, r.code, before.text + r.text)
  }

  function Eval<W>(exec: Executor<W>, list: AndOr, world: W): Ran<W>
    decreases list
  {
    match list
    case Always => Ran(world, 0, "")
    case Single(p) => exec(p, world)
    case And(left, p) =>
      var l := Eval(exec, left, world);
      if l.code == 0 then Then(exec, l, p) else l
    case Or(left, p) =>
      var l := Eval(exec, left, world);
      if l.code != 0 then Then(exec, l, p) else l
  }

  /** One AND-OR list after the other; the last one's status counts. */
  function EvalAll<W>(exec: Executor<W>, lists: seq<AndOr>, world: W): Ran<W>
    decreases |lists|
  {
    if lists == [] then Ran(world, 0, "")
    else
      var before := EvalAll(exec, lists[..|lists| - 1], world);
      var r := Eval(exec, lists[|lists| - 1], before.world);
      Ran(r.world, r.code, before.text + r.text)
  }

  /** The AND-OR lists a parsed sequence spells: `&&` and `||` extend the list before them,
      anything else starts a new one. */
  function ListsOf(items: seq<Item>): seq<AndOr>
    decreases |items|
  {
    if items == [] then []
    else
      var lists := ListsOf(items[..|items| - 1]);
      var item := items[|items| - 1];
      var left := if lists == [] then Always else lists[|lists| - 1];
      var others := if lists == [] then [] else lists[..|lists| - 1];
      if item.op == Some("&&") then others + [And(left, item.pipeline)]
      else if item.op == Some("||") then others + [Or(left, item.pipeline)]
      else lists + [Single(item.pipeline)]
  }

  function Meaning<W>(exec: Executor<W>, items: seq<Item>, world: W): Ran<W>
  {
    EvalAll(exec, ListsOf(items), world)
  }

  /** The items of AND-OR lists written one after the other with `;` between them. */
  function Spelled(list: AndOr, op: Option<Token>): seq<Item>
    decreases list
  {
    match list
    case Always => []
    case Single(p) => [Item(p, op)]
    case And(left, p) => Spelled(left, op) + [Item(p, Some("&&"))]
    case Or(left, p) => Spelled(left, op) + [Item(p, Some("||"))]
  }

  function SpelledAll(lists: seq<AndOr>): seq<Item>
    decreases |lists|
  {
    if lists == [] then []
    else SpelledAll(lists[..|lists| - 1]) + Spelled(lists[|lists| - 1], if |lists| == 1 then None else Some(";"))
  }

  predicate Proper(list: AndOr)
  {
    match list
    case Always => false
    case Single(_) => true
    case And(left, _) => Proper(left)
    case Or(left, _) => Proper(left)
  }

  lemma {:induction false} SpelledIsRead(items: seq<Item>, list: AndOr, op: Option<Token>)
    requires Proper(list) && op != Some("&&") && op != Some("||")
    ensures ListsOf(items + Spelled(list, op)) == ListsOf(items) + [list]
    decreases list
  {
    match list
    case Single(p) => assert (items + [Item(p, op)])[..|items|] == items;
    case And(left, p) =>
      SpelledIsRead(items, left, op);
      Longer(items, Spelled(left, op), Item(p, Some("&&")));
      assert (ListsOf(items) + [left])[..|ListsOf(items)|] == ListsOf(items);
    case Or(left, p) =>
      SpelledIsRead(items, left, op);
      Longer(items, Spelled(left, op), Item(p, Some("||")));
      assert (ListsOf(items) + [left])[..|ListsOf(items)|] == ListsOf(items);
  }

  lemma Longer(a: seq<Item>, b: seq<Item>, item: Item)
    ensures a + (b + [item]) == (a + b) + [item] && ((a + b) + [item])[..|a + b|] == a + b
  {
  }

  /** Reading recovers every way of writing lists, so the meaning of a sequence is that of
      the lists it was written as. */
  lemma {:induction false} ListsAreRead(lists: seq<AndOr>)
    requires forall k | 0 <= k < |lists| :: Proper(lists[k])
    ensures ListsOf(SpelledAll(lists)) == lists
    decreases |lists|
  {
    if lists != [] {
      var front := lists[..|lists| - 1];
      ListsAreRead(front);
      SpelledIsRead(SpelledAll(front), lists[|lists| - 1], if |lists| == 1 then None else Some(";"));
      assert front + [lists[|lists| - 1]] == lists;
    }
  }

  // ---- One more pipeline -----------------------------------------------------------------------

  predicate Skips(op: Option<Token>, code: int)
  {
    (op == Some("&&") && code != 0) || (op == Some("||") && code == 0)
  }

  lemma EvalLast<W>(exec: Executor<W>, others: seq<AndOr>, left: AndOr, p: Pipeline, world: W)
    ensures var before := EvalAll(exec, others + [left], world);
            && EvalAll(exec, others + [And(left, p)], world) == (if before.code == 0 then Then(exec, before, p) else before)
            && EvalAll(exec, others + [Or(left, p)], world) == (if before.code != 0 then Then(exec, before, p) else before)
  {
    var start := EvalAll(exec, others, world);
    assert (others + [left])[..|others|] == others;
    assert (others + [And(left, p)])[..|others|] == others;
    assert (others + [Or(left, p)])[..|others|] == others;
    var l := Eval(exec, left, start.world);
    var r := exec(p, l.world);
    assert start.text + (l.text + r.text) == start.text + l.text + r.text;
  }

  lemma EvalFirst<W>(exec: Executor<W>, p: Pipeline, world: W)
    ensures EvalAll(exec, [And(Always, p)], world) == Then(exec, Ran(world, 0, ""), p)
    ensures EvalAll(exec, [Or(Always, p)], world) == Ran(world, 0, "")
  {
    EvalLast(exec, [], Always, p, world);
    assert [] + [And(Always, p)] == [And(Always, p)] && [] + [Or(Always, p)] == [Or(Always, p)];
    assert [] + [Always] == [Always] && [Always][..0] == [];
  }

  /** A further pipeline is skipped or run on exactly the loop's condition. */
  lemma OneMorePipeline<W>(exec: Executor<W>, items: seq<Item>, k: nat, world: W)
    requires k < |items|
    ensures var before := Meaning(exec, items[..k], world);
            Meaning(exec, items[..k + 1], world) ==
            if (items[k].op == Some("&&") && before.code != 0) || (items[k].op == Some("||") && before.code == 0) then before
            else
              var last := exec(items[k].pipeline, before.world);
              Ran(last.world, last.code, before.text + last.text)
  {
    hide Eval, EvalAll;
    var item := items[k];
    assert items[..k + 1][..k] == items[..k] && items[..k + 1][k] == item;
    var lists := ListsOf(items[..k]);
    if item.op == Some("&&") || item.op == Some("||") {
      if lists == [] {
        EvalFirst(exec, item.pipeline, world);
        NoLists(exec, world);
        assert [] + [And(Always, item.pipeline)] == [And(Always, item.pipeline)];
        assert [] + [Or(Always, item.pipeline)] == [Or(Always, item.pipeline)];
      } else {
        assert lists == lists[..|lists| - 1] + [lists[|lists| - 1]];
        EvalLast(exec, lists[..|lists| - 1], lists[|lists| - 1], item.pipeline, world);
      }
    } else {
      NextList(exec, lists, item.pipeline, world);
    }
  }

  lemma NoLists<W>(exec: Executor<W>, world: W)
    ensures EvalAll(exec, [], world) == Ran(world, 0, "")
  {
  }

  lemma NextList<W>(exec: Executor<W>, lists: seq<AndOr>, p: Pipeline, world: W)
    ensures EvalAll(exec, lists + [Single(p)], world) == Then(exec, EvalAll(exec, lists, world), p)
  {
    assert (lists + [Single(p)])[..|lists|] == lists;
  }

  // ---- The dispatcher ------------------------------------------------------------------------------

  /** The output so far exceeds the limit after the first `k` pipelines. */
  predicate Over<W>(exec: Executor<W>, items: seq<Item>, k: int, world: W)
    requires 0 <= k <= |items|
  {
    |Meaning(exec, items[..k], world).text| > 1048576
  }

  /** `k` is the first pipeline whose output breaks the limit. */
  ghost predicate Breaks<W>(exec: Executor<W>, items: seq<Item>, k: int, world: W)
  {
    0 < k <= |items| && Over(exec, items, k, world) && forall j | 0 <= j < k :: !Over(exec, items, j, world)
  }

  ghost function WorldAfter<W>(exec: Executor<W>, items: seq<Item>, k: int, world: W): W
    requires 0 <= k <= |items|
  {
    Meaning(exec, items[..k], world).world
  }

  /** Within the limits the loop has the meaning of the lists; over the pipeline limit
      nothing runs; the pipeline that breaks the output limit is the last one to run. */
  method ExecuteSequence<W>(exec: Executor<W>, items: seq<Item>, world: W) returns (code: int, output: string, after: W)
    ensures |items| > 64 ==> code == 1 && output == "bash: command limit exceeded\n" && after == world
    ensures |items| <= 64 && !Over(exec, items, |items|, world) ==>
              Ran(after, code, output) == Meaning(exec, items, world)
    ensures |items| <= 64 && Over(exec, items, |items|, world) ==>
              && code == 1 && output == "bash: output limit exceeded\n"
              && exists k :: Breaks(exec, items, k, world) && after == WorldAfter(exec, items, k, world)
  {
    hide Meaning;
    var lastReturncode, outputBuffer := 0, "";
    after := world;
    if |items| > MAX_PIPELINES { return 1, COMMAND_LIMIT, world; }
    EmptyMeaning(exec, items, world);
    for k := 0 to |items|
      invariant Ran(after, lastReturncode, outputBuffer) == Meaning(exec, items[..k], world)
      invariant forall j | 0 <= j <= k :: !Over(exec, items, j, world)
    {
      OneMorePipeline(exec, items, k, world);
      var item := items[k];
      if Skips(item.op, lastReturncode) { StillUnder(exec, items, k, world); }
      if item.op == Some("&&") && lastReturncode != 0 { continue; }
      if item.op == Some("||") && lastReturncode == 0 { continue; }
      var r := exec(item.pipeline, after);
      after := r.world;
      lastReturncode := r.code;
      outputBuffer := outputBuffer + r.text;
      if |outputBuffer| > MAX_IO_BYTES {
        assert Breaks(exec, items, k + 1, world);
        OutputGrows(exec, items, k + 1, world);
        WholeIsOver(exec, items, k + 1, world);
        return 1, OUTPUT_LIMIT, after;
      }
    }
    assert items[..|items|] == items;
    return lastReturncode, outputBuffer, after;
  }

  lemma StillUnder<W>(exec: Executor<W>, items: seq<Item>, k: nat, world: W)
    requires k < |items| && !Over(exec, items, k, world)
    requires Skips(items[k].op, Meaning(exec, items[..k], world).code)
    ensures !Over(exec, items, k + 1, world)
  {
    hide Meaning;
    OneMorePipeline(exec, items, k, world);
  }

  lemma WholeIsOver<W>(exec: Executor<W>, items: seq<Item>, k: nat, world: W)
    requires k <= |items| && Over(exec, items, k, world)
    requires Meaning(exec, items[..k], world).text <= Meaning(exec, items, world).text
    ensures Over(exec, items, |items|, world)
  {
    hide Meaning;
    assert items[..|items|] == items;
  }

  lemma EmptyMeaning<W>(exec: Executor<W>, items: seq<Item>, world: W)
    ensures Meaning(exec, items[..0], world) == Ran(world, 0, "")
  {
    assert ListsOf(items[..0]) == [];
  }

  /** Output only grows, so without a breaking pipeline the whole list is within the limit. */
  lemma {:induction false} OutputGrows<W>(exec: Executor<W>, items: seq<Item>, k: nat, world: W)
    requires k <= |items|
    ensures Meaning(exec, items[..k], world).text <= Meaning(exec, items, world).text
    decreases |items| - k
  {
    hide Meaning;
    if k == |items| {
      assert items[..k] == items;
    } else {
      OneMorePipeline(exec, items, k, world);
      OutputGrows(exec, items, k + 1, world);
    }
  }
}
