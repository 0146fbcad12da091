/** From shell tokens to the syntax tree and back. */
module ShellParser {
  import opened Wrappers

  type Token = string

  datatype Redirect = Redirect(target: Token, append: bool)
  datatype Command = Command(args: seq<Token>, output: Option<Redirect>, input: Option<Token>, errors: Option<Redirect>)
  type Pipeline = seq<Command>

  /** A pipeline and the operator before it. */
  datatype Item = Item(pipeline: Pipeline, op: Option<Token>)

  datatype SyntaxError = UnexpectedPipe | UnexpectedNewline
  datatype Result<+T> = Success(value: T) | Failure(error: SyntaxError)

  const SEPARATORS: set<Token> := {";", "&&", "||"}
  const PIPE: set<Token> := {"|"}
  const REDIRECTS: set<Token> := {">", ">>", "<", "2>", "2>>"}
  const EMPTY := Command([], None, None, None)

  function WithRedirect(cmd: Command, token: Token, target: Token): Command
    requires token in REDIRECTS
  {
    if token == ">" then cmd.(output := Some(Redirect(target, false)))
    else if token == ">>" then cmd.(output := Some(Redirect(target, true)))
    else if token == "<" then cmd.(input := Some(target))
    else if token == "2>" then cmd.(errors := Some(Redirect(target, false)))
    else cmd.(errors := Some(Redirect(target, true)))
  }

  // ---- What parsing means ----------------------------------------------------------------

  /** Add the rest of a command's tokens to `cmd`: a redirect takes the next token,
      whatever it is, and a later redirect of the same kind wins. */
  function CommandFrom(cmd: Command, tokens: seq<Token>): Result<Command>
    decreases |tokens|
  {
    if tokens == [] then Success(cmd)
    else if tokens[0] in REDIRECTS then
      if |tokens| == 1 then Failure(UnexpectedNewline)
      else CommandFrom(WithRedirect(cmd, tokens[0], tokens[1]), tokens[2..])
    else CommandFrom(cmd.(args := cmd.args + [tokens[0]]), tokens[1..])
  }

  function CommandOf(tokens: seq<Token>): Result<Command> { CommandFrom(EMPTY, tokens) }

  function FirstOf(tokens: seq<Token>, marks: set<Token>): (i: nat)
    ensures i <= |tokens|
    ensures i < |tokens| ==> tokens[i] in marks
    ensures forall k | 0 <= k < i :: tokens[k] !in marks
    decreases |tokens|
  {
    if tokens == [] || tokens[0] in marks then 0 else 1 + FirstOf(tokens[1..], marks)
  }

  /** A stretch of tokens between two marks, and the mark before it. */
  datatype Piece = Piece(op: Option<Token>, body: seq<Token>)

  function Cut(op: Option<Token>, tokens: seq<Token>, marks: set<Token>): (pieces: seq<Piece>)
    ensures pieces != [] && pieces[0].op == op
    decreases |tokens|
  {
    var i := FirstOf(tokens, marks);
    if i == |tokens| then [Piece(op, tokens)]
    else [Piece(op, tokens[..i])] + Cut(Some(tokens[i]), tokens[i + 1..], marks)
  }

  function Prepend<T>(front: seq<T>, result: Result<seq<T>>): Result<seq<T>>
  {
    match result
    case Success(rest) => Success(front + rest)
    case Failure(_) => result
  }

  /** No side of a pipe may be empty; the first fault counts. */
  function SidesOf(pieces: seq<Piece>): Result<Pipeline>
    decreases |pieces|
  {
    if pieces == [] then Success([])
    else if pieces[0].body == [] then Failure(UnexpectedPipe)
    else
      match CommandOf(pieces[0].body)
      case Failure(e) => Failure(e)
      case Success(cmd) => Prepend([cmd], SidesOf(pieces[1..]))
  }

  function PipelineOf(tokens: seq<Token>): Result<Pipeline>
  {
    if tokens == [] then Success([]) else SidesOf(Cut(None, tokens, PIPE))
  }

  /** Empty stretches between separators are dropped; the operator nearest to a pipeline
      counts. */
  function ItemsOf(pieces: seq<Piece>): Result<seq<Item>>
    decreases |pieces|
  {
    if pieces == [] then Success([])
    else if pieces[0].body == [] then ItemsOf(pieces[1..])
    else
      match PipelineOf(pieces[0].body)
      case Failure(e) => Failure(e)
      case Success(pipeline) => Prepend([Item(pipeline, pieces[0].op)], ItemsOf(pieces[1..]))
  }

  function SequenceOf(tokens: seq<Token>): Result<seq<Item>>
  {
    ItemsOf(Cut(None, tokens, SEPARATORS))
  }

  // ---- The parser's loops ------------------------------------------------------------------

  method ParseCommand(tokens: seq<Token>) returns (result: Result<Command>)
    ensures result == CommandOf(tokens)
  {
    var args: seq<Token> := [];
    var cmd := EMPTY;
    var i := 0;
    while i < |tokens|
      invariant 0 <= i <= |tokens| && cmd.args == []
      invariant CommandFrom(cmd.(args := args), tokens[i..]) == CommandOf(tokens)
    {
      var token := tokens[i];
      assert tokens[i..][1..] == tokens[i + 1..];
      if token in REDIRECTS {
        if i + 1 >= |tokens| { return Failure(UnexpectedNewline); }
        assert tokens[i..][2..] == tokens[i + 2..] && tokens[i..][1] == tokens[i + 1];
        cmd := WithRedirect(cmd, token, tokens[i + 1]);
        i := i + 2;
      } else {
        args := args + [token];
        i := i + 1;
      }
    }
    return Success(cmd.(args := args));
  }

  lemma CutAtMark(op: Option<Token>, current: seq<Token>, mark: Token, rest: seq<Token>, marks: set<Token>)
    requires mark in marks && forall k | 0 <= k < |current| :: current[k] !in marks
    ensures Cut(op, current + [mark] + rest, marks) == [Piece(op, current)] + Cut(Some(mark), rest, marks)
  {
    var tokens := current + [mark] + rest;
    assert tokens[|current|] == mark && forall k | 0 <= k < |current| :: tokens[k] == current[k];
    assert tokens[..|current|] == current && tokens[|current| + 1..] == rest;
  }

  lemma CutNoMark(op: Option<Token>, current: seq<Token>, marks: set<Token>)
    requires forall k | 0 <= k < |current| :: current[k] !in marks
    ensures Cut(op, current, marks) == [Piece(op, current)]
  {
  }

  /** Only the bodies of pieces matter to a pipeline. */
  lemma SidesIgnoreOps(op: Option<Token>, op': Option<Token>, tokens: seq<Token>)
    ensures SidesOf(Cut(op, tokens, PIPE)) == SidesOf(Cut(op', tokens, PIPE))
  {
    var a, b := Cut(op, tokens, PIPE), Cut(op', tokens, PIPE);
    assert a[1..] == b[1..] && a[0].body == b[0].body;
  }

  lemma PrependTwice<T>(front: seq<T>, x: T, result: Result<seq<T>>)
    ensures Prepend(front, Prepend([x], result)) == Prepend(front + [x], result)
  {
    if result.Success? { assert front + ([x] + result.value) == front + [x] + result.value; }
  }

  lemma PrependNone<T>(result: Result<seq<T>>)
    ensures Prepend([], result) == result
  {
    if result.Success? { assert [] + result.value == result.value; }
  }

  lemma PrependLast<T>(front: seq<T>, x: T)
    ensures Prepend(front, Prepend([x], Success([]))) == Success(front + [x])
  {
    assert [x] + [] == [x];
  }

  lemma OneSide(body: seq<Token>)
    ensures SidesOf([Piece(None, body)]) ==
            if body == [] then Failure(UnexpectedPipe)
            else if CommandOf(body).Failure? then Failure(CommandOf(body).error)
            else Prepend([CommandOf(body).value], Success([]))
  {
    assert [Piece(None, body)][1..] == [];
  }

  lemma OneItem(op: Option<Token>, body: seq<Token>)
    ensures ItemsOf([Piece(op, body)]) ==
            if body == [] then Success([])
            else if PipelineOf(body).Failure? then Failure(PipelineOf(body).error)
            else Prepend([Item(PipelineOf(body).value, op)], Success([]))
  {
    hide PipelineOf;
    assert [Piece(op, body)][1..] == [];
  }

  method ParsePipeline(tokens: seq<Token>) returns (result: Result<Pipeline>)
    ensures result == PipelineOf(tokens)
  {
    hide CommandOf, Cut, FirstOf;
    var commands: Pipeline, current: seq<Token> := [], [];
    assert [] + tokens == tokens && tokens[0..] == tokens;
    PrependNone(SidesOf(Cut(None, tokens, PIPE)));
    for i := 0 to |tokens|
      invariant forall k | 0 <= k < |current| :: current[k] !in PIPE
      invariant i > 0 && current == [] ==> commands != []
      invariant i == 0 ==> commands == [] && current == []
      invariant tokens != [] ==>
        Prepend(commands, SidesOf(Cut(None, current + tokens[i..], PIPE))) == PipelineOf(tokens)
    {
      var token := tokens[i];
      assert current + tokens[i..] == current + [token] + tokens[i + 1..];
      if token == "|" {
        CutAtMark(None, current, token, tokens[i + 1..], PIPE);
        if current == [] { return Failure(UnexpectedPipe); }
        var parsed := ParseCommand(current);
        var pieces := Cut(None, current + [token] + tokens[i + 1..], PIPE);
        assert pieces[1..] == Cut(Some(token), tokens[i + 1..], PIPE);
        match parsed {
          case Failure(e) => return Failure(e);
          case Success(cmd) =>
            PrependTwice(commands, cmd, SidesOf(pieces[1..]));
            commands := commands + [cmd];
        }
        current := [];
        SidesIgnoreOps(Some(token), None, tokens[i + 1..]);
        assert [] + tokens[i + 1..] == tokens[i + 1..];
      } else {
        assert current + [token] + tokens[i + 1..] == (current + [token]) + tokens[i + 1..];
        current := current + [token];
      }
    }
    assert current + tokens[|tokens|..] == current;
    CutNoMark(None, current, PIPE);
    OneSide(current);
    if current != [] {
      var parsed := ParseCommand(current);
      match parsed {
        case Failure(e) => return Failure(e);
        case Success(cmd) =>
          PrependLast(commands, cmd);
          commands := commands + [cmd];
      }
    } else if commands != [] {
      return Failure(UnexpectedPipe);
    }
    return Success(commands);
  }

  method ParseSequence(tokens: seq<Token>) returns (result: Result<seq<Item>>)
    ensures result == SequenceOf(tokens)
  {
    hide PipelineOf, Cut, FirstOf;
    var pipelines: seq<Item>, current: seq<Token>, currentOp: Option<Token> := [], [], None;
    assert [] + tokens == tokens && tokens[0..] == tokens;
    PrependNone(ItemsOf(Cut(None, tokens, SEPARATORS)));
    for i := 0 to |tokens|
      invariant forall k | 0 <= k < |current| :: current[k] !in SEPARATORS
      invariant Prepend(pipelines, ItemsOf(Cut(currentOp, current + tokens[i..], SEPARATORS))) == SequenceOf(tokens)
    {
      var token := tokens[i];
      assert current + tokens[i..] == current + [token] + tokens[i + 1..];
      if token in SEPARATORS {
        CutAtMark(currentOp, current, token, tokens[i + 1..], SEPARATORS);
        var pieces := Cut(currentOp, current + [token] + tokens[i + 1..], SEPARATORS);
        assert pieces[1..] == Cut(Some(token), tokens[i + 1..], SEPARATORS);
        if current != [] {
          var parsed := ParsePipeline(current);
          match parsed {
            case Failure(e) => return Failure(e);
            case Success(pipeline) =>
              PrependTwice(pipelines, Item(pipeline, currentOp), ItemsOf(pieces[1..]));
              pipelines := pipelines + [Item(pipeline, currentOp)];
          }
        }
        current, currentOp := [], Some(token);
        assert [] + tokens[i + 1..] == tokens[i + 1..];
      } else {
        assert current + [token] + tokens[i + 1..] == (current + [token]) + tokens[i + 1..];
        current := current + [token];
      }
    }
    assert current + tokens[|tokens|..] == current;
    CutNoMark(currentOp, current, SEPARATORS);
    OneItem(currentOp, current);
    assert pipelines + [] == pipelines;
    if current != [] {
      var parsed := ParsePipeline(current);
      match parsed {
        case Failure(e) => return Failure(e);
        case Success(pipeline) =>
          PrependLast(pipelines, Item(pipeline, currentOp));
          pipelines := pipelines + [Item(pipeline, currentOp)];
      }
    }
    return Success(pipelines);
  }
}
