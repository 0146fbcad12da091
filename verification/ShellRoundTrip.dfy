/** Printing and parsing undo each other, and exactly which token lists are refused. */
module ShellRoundTrip {
  import opened Wrappers
  import opened ShellParser

  // ---- Printing -----------------------------------------------------------------------------

  function PrintRedirect(r: Option<Redirect>, once: Token, append: Token): seq<Token>
  {
    match r
    case None => []
    case Some(Redirect(target, appending)) => [if appending then append else once, target]
  }

  function PrintInput(r: Option<Token>): seq<Token>
  {
    if r.Some? then ["<", r.value] else []
  }

  function PrintCommand(c: Command): seq<Token>
  {
    c.args + (PrintInput(c.input) + (PrintRedirect(c.output, ">", ">>") + PrintRedirect(c.errors, "2>", "2>>")))
  }

  function PrintPipeline(p: Pipeline): seq<Token>
    requires p != []
  {
    if |p| == 1 then PrintCommand(p[0]) else PrintCommand(p[0]) + ["|"] + PrintPipeline(p[1..])
  }

  predicate Printable(items: seq<Item>) { forall k | 0 <= k < |items| :: items[k].pipeline != [] }

  function PrintItems(items: seq<Item>): seq<Token>
    requires Printable(items)
  {
    if items == [] then []
    else (if items[0].op.Some? then [items[0].op.value] else []) + (PrintPipeline(items[0].pipeline) + PrintItems(items[1..]))
  }

  // ---- Well-formed trees ----------------------------------------------------------------------

  predicate Separator(t: Token) { t == ";" || t == "&&" || t == "||" }

  predicate Sign(t: Token) { t == ">" || t == ">>" || t == "<" || t == "2>" || t == "2>>" }

  predicate Word(t: Token) { t != "|" && !Separator(t) }

  predicate Words(tokens: seq<Token>) { forall k | 0 <= k < |tokens| :: Word(tokens[k]) }

  predicate PlainArgs(args: seq<Token>) { forall k | 0 <= k < |args| :: Word(args[k]) && !Sign(args[k]) }

  predicate GoodTargets(c: Command)
  {
    && (c.input.Some? ==> Word(c.input.value))
    && (c.output.Some? ==> Word(c.output.value.target))
    && (c.errors.Some? ==> Word(c.errors.value.target))
  }

  predicate NonEmpty(c: Command) { c.args != [] || c.input.Some? || c.output.Some? || c.errors.Some? }

  /** Arguments are plain words; a target may even be a redirect sign. */
  predicate GoodCommand(c: Command) { PlainArgs(c.args) && GoodTargets(c) && NonEmpty(c) }

  predicate GoodPipeline(p: Pipeline) { p != [] && forall k | 0 <= k < |p| :: GoodCommand(p[k]) }

  predicate Chained(items: seq<Item>)
  {
    forall k | 0 <= k < |items| ::
      && GoodPipeline(items[k].pipeline)
      && items[k].op.Some? && Separator(items[k].op.value)
  }

  /** Only the first pipeline may lack an operator before it. */
  predicate GoodSequence(items: seq<Item>)
  {
    items == [] ||
    (&& GoodPipeline(items[0].pipeline)
     && (items[0].op.Some? ==> Separator(items[0].op.value))
     && Chained(items[1..]))
  }

  lemma GoodIsPrintable(items: seq<Item>)
    requires GoodSequence(items)
    ensures Printable(items)
  {
    forall k | 0 <= k < |items| ensures items[k].pipeline != [] {
      assert k > 0 ==> items[k] == items[1..][k - 1];
    }
  }

  // ---- Print, then parse ------------------------------------------------------------------------

  lemma {:induction false} ArgsScan(cmd: Command, args: seq<Token>, tail: seq<Token>)
    requires PlainArgs(args)
    ensures CommandFrom(cmd, args + tail) == CommandFrom(cmd.(args := cmd.args + args), tail)
    decreases |args|
  {
    if args == [] {
      assert args + tail == tail && cmd.args + args == cmd.args;
    } else {
      assert (args + tail)[0] == args[0] && (args + tail)[1..] == args[1..] + tail;
      ArgsScan(cmd.(args := cmd.args + [args[0]]), args[1..], tail);
      assert cmd.args + [args[0]] + args[1..] == cmd.args + args;
    }
  }

  lemma RedirectScan(cmd: Command, token: Token, target: Token, tail: seq<Token>)
    requires token in REDIRECTS
    ensures CommandFrom(cmd, [token, target] + tail) == CommandFrom(WithRedirect(cmd, token, target), tail)
  {
    assert ([token, target] + tail)[2..] == tail;
  }

  lemma CommandRoundTrip(c: Command)
    requires GoodCommand(c)
    ensures CommandOf(PrintCommand(c)) == Success(c)
  {
    hide CommandFrom;
    var errors := PrintRedirect(c.errors, "2>", "2>>");
    var outputs := PrintRedirect(c.output, ">", ">>") + errors;
    ArgsScan(EMPTY, c.args, PrintInput(c.input) + outputs);
    assert EMPTY.args + c.args == c.args;
    var withArgs := Command(c.args, None, None, None);
    var withInput := withArgs.(input := c.input);
    var withOutput := withInput.(output := c.output);
    assert CommandFrom(withArgs, PrintInput(c.input) + outputs) == CommandFrom(withInput, outputs) by {
      if c.input.Some? { RedirectScan(withArgs, "<", c.input.value, outputs); } else { assert [] + outputs == outputs; }
    }
    assert CommandFrom(withInput, outputs) == CommandFrom(withOutput, errors) by {
      OptionalScan(withInput, c.output, ">", ">>", errors);
    }
    OptionalScan(withOutput, c.errors, "2>", "2>>", []);
    assert errors + [] == errors;
    ScanEnds(c);
  }

  lemma ScanEnds(c: Command)
    ensures CommandFrom(c, []) == Success(c)
  {
  }

  lemma OptionalScan(cmd: Command, r: Option<Redirect>, once: Token, append: Token, tail: seq<Token>)
    requires once in REDIRECTS && append in REDIRECTS
    ensures CommandFrom(cmd, PrintRedirect(r, once, append) + tail) ==
            match r
            case None => CommandFrom(cmd, tail)
            case Some(Redirect(target, appending)) =>
              CommandFrom(WithRedirect(cmd, if appending then append else once, target), tail)
  {
    if r.Some? {
      RedirectScan(cmd, if r.value.append then append else once, r.value.target, tail);
    } else {
      assert [] + tail == tail;
    }
  }

  lemma PrintedCommandWords(c: Command)
    requires GoodCommand(c)
    ensures Words(PrintCommand(c)) && PrintCommand(c) != []
  {
    assert Words(c.args) && Words(PrintInput(c.input));
    assert Words(PrintRedirect(c.output, ">", ">>")) && Words(PrintRedirect(c.errors, "2>", "2>>"));
  }

  lemma {:induction false} PipelineRoundTrip(op: Option<Token>, p: Pipeline)
    requires GoodPipeline(p)
    ensures SidesOf(Cut(op, PrintPipeline(p), PIPE)) == Success(p)
    decreases |p|
  {
    hide CommandOf, PrintCommand, GoodCommand, Cut;
    var head := PrintCommand(p[0]);
    PrintedCommandWords(p[0]);
    CommandRoundTrip(p[0]);
    if |p| == 1 {
      CutNoMark(op, head, PIPE);
      assert [Piece(op, head)][1..] == [] && [p[0]] + [] == p;
    } else {
      var tail := PrintPipeline(p[1..]);
      CutAtMark(op, head, "|", tail, PIPE);
      PipelineRoundTrip(Some("|"), p[1..]);
      var pieces := Cut(op, PrintPipeline(p), PIPE);
      assert pieces[1..] == Cut(Some("|"), tail, PIPE);
      assert [p[0]] + p[1..] == p;
    }
  }

  lemma {:induction false} PrintedPipelineTokens(p: Pipeline)
    requires GoodPipeline(p)
    ensures PrintPipeline(p) != [] && forall k | 0 <= k < |PrintPipeline(p)| :: PrintPipeline(p)[k] !in SEPARATORS
    decreases |p|
  {
    hide PrintCommand, GoodCommand;
    PrintedCommandWords(p[0]);
    if |p| > 1 { PrintedPipelineTokens(p[1..]); }
  }

  lemma PipelineParses(p: Pipeline)
    requires GoodPipeline(p)
    ensures PipelineOf(PrintPipeline(p)) == Success(p)
  {
    hide SidesOf, Cut, PrintPipeline, GoodPipeline;
    PipelineRoundTrip(None, p);
    PrintedPipelineTokens(p);
  }

  lemma ItemThenRest(piece: Piece, pieces: seq<Piece>, p: Pipeline, rest: seq<Item>)
    requires piece.body != [] && PipelineOf(piece.body) == Success(p) && ItemsOf(pieces) == Success(rest)
    ensures ItemsOf([piece] + pieces) == Success([Item(p, piece.op)] + rest)
  {
    hide PipelineOf;
    assert ([piece] + pieces)[1..] == pieces;
  }

  lemma PrintedItems(items: seq<Item>)
    requires Printable(items)
    ensures items == [] ==> PrintItems(items) == []
    ensures items != [] && items[0].op.Some? ==>
              Printable(items[1..]) &&
              PrintItems(items) == [items[0].op.value] + (PrintPipeline(items[0].pipeline) + PrintItems(items[1..]))
  {
    hide PrintPipeline;
  }

  lemma ItemsStep(op: Option<Token>, p: Pipeline, mark: Token, tail: seq<Token>, rest: seq<Item>)
    requires GoodPipeline(p) && mark in SEPARATORS && ItemsOf(Cut(Some(mark), tail, SEPARATORS)) == Success(rest)
    ensures ItemsOf(Cut(op, PrintPipeline(p) + ([mark] + tail), SEPARATORS)) == Success([Item(p, op)] + rest)
  {
    assert p != [];
    hide PipelineOf, PrintPipeline, Cut, GoodPipeline, ItemsOf, FirstOf;
    var head := PrintPipeline(p);
    PrintedPipelineTokens(p);
    PipelineParses(p);
    assert head + ([mark] + tail) == head + [mark] + tail;
    CutAtMark(op, head, mark, tail, SEPARATORS);
    ItemThenRest(Piece(op, head), Cut(Some(mark), tail, SEPARATORS), p, rest);
  }

  lemma LastItem(op: Option<Token>, p: Pipeline)
    requires GoodPipeline(p)
    ensures ItemsOf(Cut(op, PrintPipeline(p), SEPARATORS)) == Success([Item(p, op)])
  {
    assert p != [];
    hide PipelineOf, PrintPipeline, Cut, GoodPipeline, ItemsOf, FirstOf;
    var head := PrintPipeline(p);
    PrintedPipelineTokens(p);
    PipelineParses(p);
    CutNoMark(op, head, SEPARATORS);
    OneItem(op, head);
    assert [Item(p, op)] + [] == [Item(p, op)];
  }

  lemma {:induction false} ItemsRoundTrip(op: Option<Token>, p: Pipeline, rest: seq<Item>)
    requires GoodPipeline(p) && Chained(rest) && Printable(rest)
    ensures ItemsOf(Cut(op, PrintPipeline(p) + PrintItems(rest), SEPARATORS)) == Success([Item(p, op)] + rest)
    decreases |rest|
  {
    assert p != [];
    hide PrintPipeline, Cut, GoodPipeline, ItemsOf, PrintItems;
    PrintedItems(rest);
    if rest == [] {
      LastItem(op, p);
      assert PrintPipeline(p) + PrintItems(rest) == PrintPipeline(p) && [Item(p, op)] + rest == [Item(p, op)];
    } else {
      var mark := rest[0].op.value;
      ItemsRoundTrip(Some(mark), rest[0].pipeline, rest[1..]);
      assert [Item(rest[0].pipeline, Some(mark))] + rest[1..] == rest;
      ItemsStep(op, p, mark, PrintPipeline(rest[0].pipeline) + PrintItems(rest[1..]), rest);
    }
  }

  /** Every well-formed tree, printed, parses to itself. */
  lemma SequenceRoundTrip(items: seq<Item>)
    requires GoodSequence(items) && Printable(items)
    ensures SequenceOf(PrintItems(items)) == Success(items)
  {
    hide Cut, ItemsOf, PrintPipeline, GoodPipeline;
    if items == [] {
      CutNoMark(None, [], SEPARATORS);
      OneItem(None, []);
    } else {
      var tokens := PrintPipeline(items[0].pipeline) + PrintItems(items[1..]);
      ItemsRoundTrip(items[0].op, items[0].pipeline, items[1..]);
      assert [items[0]] + items[1..] == items;
      if items[0].op.Some? {
        assert PrintItems(items) == [] + [items[0].op.value] + tokens;
        LeadingMark(items[0].op.value, tokens);
      } else {
        assert PrintItems(items) == tokens;
      }
    }
  }

  lemma LeadingMark(mark: Token, tokens: seq<Token>)
    requires mark in SEPARATORS
    ensures ItemsOf(Cut(None, [] + [mark] + tokens, SEPARATORS)) == ItemsOf(Cut(Some(mark), tokens, SEPARATORS))
  {
    CutAtMark(None, [], mark, tokens, SEPARATORS);
    var pieces := Cut(None, [] + [mark] + tokens, SEPARATORS);
    assert pieces[1..] == Cut(Some(mark), tokens, SEPARATORS);
  }

  // ---- Parse, print, parse ------------------------------------------------------------------------

  /** The piece holds only tokens of the list, and no marks. */
  predicate PartOf(piece: Piece, tokens: seq<Token>, marks: set<Token>)
  {
    forall t <- piece.body :: t in tokens && t !in marks
  }

  predicate Unmarked(piece: Piece) { forall t <- piece.body :: t !in SEPARATORS }

  predicate MarkedBy(piece: Piece, marks: set<Token>) { piece.op.Some? && piece.op.value in marks }

  predicate Parts(pieces: seq<Piece>, tokens: seq<Token>, marks: set<Token>)
  {
    && (forall k | 0 <= k < |pieces| :: PartOf(pieces[k], tokens, marks))
    && (forall k | 0 < k < |pieces| :: MarkedBy(pieces[k], marks))
  }

  lemma {:induction false} CutParts(op: Option<Token>, tokens: seq<Token>, marks: set<Token>)
    ensures Parts(Cut(op, tokens, marks), tokens, marks)
    decreases |tokens|
  {
    var i := FirstOf(tokens, marks);
    if i < |tokens| {
      var rest := Cut(Some(tokens[i]), tokens[i + 1..], marks);
      CutParts(Some(tokens[i]), tokens[i + 1..], marks);
      var pieces := Cut(op, tokens, marks);
      assert pieces[1..] == rest;
      assert PartOf(pieces[0], tokens, marks);
      forall k | 0 < k < |pieces| ensures MarkedBy(pieces[k], marks) && PartOf(pieces[k], tokens, marks) {
        assert pieces[k] == rest[k - 1];
        assert PartOf(rest[k - 1], tokens[i + 1..], marks);
      }
    }
  }

  lemma {:induction false} CommandIsGood(cmd: Command, tokens: seq<Token>)
    requires PlainArgs(cmd.args) && GoodTargets(cmd) && Words(tokens) && CommandFrom(cmd, tokens).Success?
    ensures var c := CommandFrom(cmd, tokens).value;
            PlainArgs(c.args) && GoodTargets(c) && (tokens != [] || NonEmpty(cmd) ==> NonEmpty(c))
    decreases |tokens|
  {
    if tokens != [] {
      if tokens[0] in REDIRECTS {
        var next := WithRedirect(cmd, tokens[0], tokens[1]);
        CommandIsGood(next, tokens[2..]);
      } else {
        CommandIsGood(cmd.(args := cmd.args + [tokens[0]]), tokens[1..]);
      }
    }
  }

  lemma {:induction false} SidesAreGood(pieces: seq<Piece>)
    requires forall k | 0 <= k < |pieces| :: Words(pieces[k].body)
    requires SidesOf(pieces).Success?
    ensures var p := SidesOf(pieces).value;
            |p| == |pieces| && forall k | 0 <= k < |p| :: GoodCommand(p[k])
    decreases |pieces|
  {
    if pieces != [] {
      CommandIsGood(EMPTY, pieces[0].body);
      SidesAreGood(pieces[1..]);
    }
  }

  lemma PipelineIsGood(tokens: seq<Token>)
    requires tokens != [] && (forall t <- tokens :: t !in SEPARATORS) && PipelineOf(tokens).Success?
    ensures GoodPipeline(PipelineOf(tokens).value)
  {
    hide SidesOf, Cut;
    CutParts(None, tokens, PIPE);
    var pieces := Cut(None, tokens, PIPE);
    forall k | 0 <= k < |pieces| ensures Words(pieces[k].body) {
      assert PartOf(pieces[k], tokens, PIPE);
      forall j | 0 <= j < |pieces[k].body| ensures Word(pieces[k].body[j]) { assert pieces[k].body[j] in pieces[k].body; }
    }
    SidesAreGood(pieces);
  }

  lemma {:induction false} ItemsAreGood(pieces: seq<Piece>)
    requires forall k | 0 <= k < |pieces| :: Unmarked(pieces[k]) && MarkedBy(pieces[k], SEPARATORS)
    requires ItemsOf(pieces).Success?
    ensures Chained(ItemsOf(pieces).value)
    decreases |pieces|
  {
    hide PipelineOf, GoodPipeline;
    if pieces != [] {
      ItemsAreGood(pieces[1..]);
      if pieces[0].body != [] { PipelineIsGood(pieces[0].body); }
    }
  }

  lemma ChainedIsGood(items: seq<Item>)
    requires Chained(items)
    ensures GoodSequence(items)
  {
    hide GoodPipeline;
    assert items != [] ==> Chained(items[1..]);
  }

  /** Whatever parses is a well-formed tree. */
  lemma ParsedIsGood(tokens: seq<Token>)
    requires SequenceOf(tokens).Success?
    ensures GoodSequence(SequenceOf(tokens).value)
  {
    hide PipelineOf, GoodPipeline, Cut;
    var pieces := Cut(None, tokens, SEPARATORS);
    CutParts(None, tokens, SEPARATORS);
    var later := pieces[1..];
    assert PartOf(pieces[0], tokens, SEPARATORS);
    forall k | 0 <= k < |later| ensures Unmarked(later[k]) && MarkedBy(later[k], SEPARATORS) {
      assert later[k] == pieces[k + 1] && PartOf(pieces[k + 1], tokens, SEPARATORS);
    }
    ItemsAreGood(later);
    if pieces[0].body == [] {
      ChainedIsGood(ItemsOf(pieces[1..]).value);
    } else {
      PipelineIsGood(pieces[0].body);
      var rest := ItemsOf(pieces[1..]).value;
      assert ([Item(PipelineOf(pieces[0].body).value, None)] + rest)[1..] == rest;
    }
  }

  /** Printing an accepted list's tree and parsing again gives the same tree. */
  lemma ParsePrintParse(tokens: seq<Token>)
    requires SequenceOf(tokens).Success?
    ensures var items := SequenceOf(tokens).value;
            Printable(items) && SequenceOf(PrintItems(items)) == SequenceOf(tokens)
  {
    hide SequenceOf, GoodSequence, PrintItems;
    ParsedIsGood(tokens);
    GoodIsPrintable(SequenceOf(tokens).value);
    SequenceRoundTrip(SequenceOf(tokens).value);
  }

  // ---- Rejection -------------------------------------------------------------------------------------

  /** How many redirect signs a command ends with. */
  function Trailing(tokens: seq<Token>): (n: nat)
    ensures n <= |tokens|
    decreases |tokens|
  {
    if tokens == [] || !Sign(tokens[|tokens| - 1]) then 0 else 1 + Trailing(tokens[..|tokens| - 1])
  }

  lemma {:induction false} TrailingCons(t: Token, s: seq<Token>)
    ensures Trailing([t] + s) == if Trailing(s) == |s| && Sign(t) then |s| + 1 else Trailing(s)
    decreases |s|
  {
    var whole := [t] + s;
    if s == [] {
      assert whole[..0] == [];
    } else {
      assert whole[|whole| - 1] == s[|s| - 1] && whole[..|whole| - 1] == [t] + s[..|s| - 1];
      TrailingCons(t, s[..|s| - 1]);
    }
  }

  /** A sign lacks its target exactly if the command ends in an odd number of signs: each
      sign takes the next token, even another sign. */
  lemma {:induction false} RedirectLacksTarget(cmd: Command, tokens: seq<Token>)
    ensures CommandFrom(cmd, tokens).Failure? <==> Trailing(tokens) % 2 == 1
    decreases |tokens|
  {
    hide Trailing;
    if tokens == [] {
      NoTrailing();
    } else if tokens[0] !in REDIRECTS {
      TrailingAfterWord(tokens);
      RedirectLacksTarget(cmd.(args := cmd.args + [tokens[0]]), tokens[1..]);
    } else if |tokens| == 1 {
      assert tokens == [tokens[0]] + [];
      NoTrailing();
      TrailingCons(tokens[0], []);
    } else {
      TrailingAfterPair(tokens);
      RedirectLacksTarget(WithRedirect(cmd, tokens[0], tokens[1]), tokens[2..]);
    }
  }

  lemma NoTrailing()
    ensures Trailing([]) == 0
  {
  }

  lemma TrailingAfterWord(tokens: seq<Token>)
    requires tokens != [] && !Sign(tokens[0])
    ensures Trailing(tokens) == Trailing(tokens[1..])
  {
    assert tokens == [tokens[0]] + tokens[1..];
    TrailingCons(tokens[0], tokens[1..]);
  }

  lemma TrailingAfterPair(tokens: seq<Token>)
    requires |tokens| >= 2 && Sign(tokens[0])
    ensures Trailing(tokens) % 2 == Trailing(tokens[2..]) % 2
  {
    hide Trailing;
    var later, rest := tokens[1..], tokens[2..];
    assert tokens == [tokens[0]] + later && later == [tokens[1]] + rest;
    TrailingCons(tokens[0], later);
    TrailingCons(tokens[1], rest);
  }

  /** One side of a pipe: empty, or ending in a redirect without a target. */
  predicate BadSide(body: seq<Token>) { body == [] || Trailing(body) % 2 == 1 }

  predicate HasBadSide(pieces: seq<Piece>) { exists k | 0 <= k < |pieces| :: BadSide(pieces[k].body) }

  /** The first bad side decides the error. */
  predicate FirstBadSide(pieces: seq<Piece>, k: int)
  {
    0 <= k < |pieces| && BadSide(pieces[k].body) && forall j | 0 <= j < k :: !BadSide(pieces[j].body)
  }

  function Fault(body: seq<Token>): SyntaxError { if body == [] then UnexpectedPipe else UnexpectedNewline }

  /** The parse fails with the fault of side `k`. */
  predicate FailsAt<T>(result: Result<T>, pieces: seq<Piece>, k: int)
  {
    0 <= k < |pieces| && result.Failure? && result.error == Fault(pieces[k].body)
  }

  predicate BadStretch(body: seq<Token>) { body != [] && HasBadSide(Cut(None, body, {"|"})) }

  predicate HasBadStretch(pieces: seq<Piece>) { exists k | 0 <= k < |pieces| :: BadStretch(pieces[k].body) }

  predicate FirstBadStretch(pieces: seq<Piece>, k: int)
  {
    0 <= k < |pieces| && BadStretch(pieces[k].body) && forall j | 0 <= j < k :: !BadStretch(pieces[j].body)
  }

  lemma {:induction false} CommandFault(cmd: Command, tokens: seq<Token>)
    requires CommandFrom(cmd, tokens).Failure?
    ensures CommandFrom(cmd, tokens).error == UnexpectedNewline
    decreases |tokens|
  {
    if tokens != [] {
      if tokens[0] !in REDIRECTS {
        CommandFault(cmd.(args := cmd.args + [tokens[0]]), tokens[1..]);
      } else if |tokens| > 1 {
        CommandFault(WithRedirect(cmd, tokens[0], tokens[1]), tokens[2..]);
      }
    }
  }

  lemma {:induction false} SidesRejectIff(pieces: seq<Piece>)
    ensures SidesOf(pieces).Failure? <==> HasBadSide(pieces)
    ensures forall k | FirstBadSide(pieces, k) :: FailsAt(SidesOf(pieces), pieces, k)
    decreases |pieces|
  {
    hide Trailing, CommandFrom;
    if pieces != [] {
      var first, later := pieces[0].body, pieces[1..];
      RedirectLacksTarget(EMPTY, first);
      if CommandFrom(EMPTY, first).Failure? { CommandFault(EMPTY, first); }
      SidesRejectIff(later);
      assert forall k | 0 < k < |pieces| :: pieces[k] == later[k - 1];
      if HasBadSide(pieces) {
        var k :| 0 <= k < |pieces| && BadSide(pieces[k].body);
        assert k > 0 ==> BadSide(later[k - 1].body);
      }
      forall k | FirstBadSide(pieces, k) ensures k > 0 ==> !BadSide(first) && FirstBadSide(later, k - 1) {
        assert k > 0 ==> !BadSide(pieces[0].body);
        forall j | 0 <= j < k - 1 ensures !BadSide(later[j].body) { assert later[j] == pieces[j + 1]; }
      }
    }
  }

  lemma {:induction false} ItemsRejectIff(pieces: seq<Piece>)
    ensures ItemsOf(pieces).Failure? <==> HasBadStretch(pieces)
    ensures forall k | FirstBadStretch(pieces, k) ::
              && PipelineOf(pieces[k].body).Failure? && ItemsOf(pieces).Failure?
              && ItemsOf(pieces).error == PipelineOf(pieces[k].body).error
    decreases |pieces|
  {
    hide SidesOf, Cut;
    if pieces != [] {
      var first, later := pieces[0].body, pieces[1..];
      StretchRejectIff(first);
      ItemsRejectIff(later);
      hide BadStretch, PipelineOf;
      assert forall k | 0 < k < |pieces| :: pieces[k] == later[k - 1];
      if HasBadStretch(pieces) {
        var k :| 0 <= k < |pieces| && BadStretch(pieces[k].body);
        assert k > 0 ==> BadStretch(later[k - 1].body);
      }
      forall k | FirstBadStretch(pieces, k) ensures k > 0 ==> !BadStretch(first) && FirstBadStretch(later, k - 1) {
        assert k > 0 ==> !BadStretch(pieces[0].body);
        forall j | 0 <= j < k - 1 ensures !BadStretch(later[j].body) { assert later[j] == pieces[j + 1]; }
      }
    }
  }

  lemma StretchRejectIff(body: seq<Token>)
    ensures PipelineOf(body).Failure? <==> BadStretch(body)
    ensures body != [] ==>
              forall k | FirstBadSide(Cut(None, body, {"|"}), k) ::
                FailsAt(PipelineOf(body), Cut(None, body, {"|"}), k)
  {
    hide SidesOf, Cut, HasBadSide, FirstBadSide, FailsAt;
    SidesRejectIff(Cut(None, body, PIPE));
  }

  /** A token list is refused exactly if, between two separators, some side of a pipe is
      empty or some redirect has no target in its command; the first such side decides
      the error. */
  lemma RejectsExactly(tokens: seq<Token>)
    ensures SequenceOf(tokens).Failure? <==> HasBadStretch(Cut(None, tokens, {";", "&&", "||"}))
    ensures var stretches := Cut(None, tokens, {";", "&&", "||"});
            forall k | FirstBadStretch(stretches, k) ::
              var sides := Cut(None, stretches[k].body, {"|"});
              forall j | FirstBadSide(sides, j) :: FailsAt(SequenceOf(tokens), sides, j)
  {
    hide ItemsOf, HasBadStretch, FirstBadSide, Cut, PipelineOf;
    var stretches := Cut(None, tokens, {";", "&&", "||"});
    ItemsRejectIff(stretches);
    forall k | FirstBadStretch(stretches, k)
      ensures var sides := Cut(None, stretches[k].body, {"|"});
              forall j | FirstBadSide(sides, j) :: FailsAt(SequenceOf(tokens), sides, j)
    {
      var body := stretches[k].body;
      StretchRejectIff(body);
      forall j | FirstBadSide(Cut(None, body, {"|"}), j) ensures FailsAt(SequenceOf(tokens), Cut(None, body, {"|"}), j) {
        assert FailsAt(PipelineOf(body), Cut(None, body, {"|"}), j);
      }
    }
  }
}
