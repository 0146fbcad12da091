/** What a parse says of the token list it came from: where the stretches lie, which of
    them become pipelines and commands, and what each token of a command does. */
module ShellMeaning {
  import opened Wrappers
  import opened ShellParser
  import opened ShellRoundTrip

  // ---- Stretches ----------------------------------------------------------------------------

  /** Bodies hold no mark, and each piece but the first has one before it. */
  predicate Marked(pieces: seq<Piece>, marks: set<Token>)
  {
    && (forall k | 0 <= k < |pieces| :: Plain(pieces[k].body, marks))
    && (forall k | 0 < k < |pieces| :: pieces[k].op.Some? && pieces[k].op.value in marks)
  }

  predicate Plain(body: seq<Token>, marks: set<Token>) { forall t <- body :: t !in marks }

  /** The bodies with the marks between them. */
  function Rejoined(pieces: seq<Piece>): seq<Token>
    requires pieces != [] && forall k | 0 < k < |pieces| :: pieces[k].op.Some?
  {
    if |pieces| == 1 then pieces[0].body
    else pieces[0].body + [pieces[1].op.value] + Rejoined(pieces[1..])
  }

  lemma {:induction false} CutRejoins(op: Option<Token>, tokens: seq<Token>, marks: set<Token>)
    ensures var pieces := Cut(op, tokens, marks); Marked(pieces, marks) && Rejoined(pieces) == tokens
    decreases |tokens|
  {
    var i := FirstOf(tokens, marks);
    if i < |tokens| {
      var rest := Cut(Some(tokens[i]), tokens[i + 1..], marks);
      CutRejoins(Some(tokens[i]), tokens[i + 1..], marks);
      hide Cut, FirstOf, Marked, Rejoined;
      assert Cut(op, tokens, marks) == [Piece(op, tokens[..i])] + rest by { CutHere(op, tokens, marks); }
      PutBefore(op, tokens[..i], rest, marks);
      assert tokens == tokens[..i] + [tokens[i]] + tokens[i + 1..];
    }
  }

  lemma CutHere(op: Option<Token>, tokens: seq<Token>, marks: set<Token>)
    requires FirstOf(tokens, marks) < |tokens|
    ensures var i := FirstOf(tokens, marks);
            Cut(op, tokens, marks) == [Piece(op, tokens[..i])] + Cut(Some(tokens[i]), tokens[i + 1..], marks)
  {
  }

  lemma PutBefore(op: Option<Token>, body: seq<Token>, rest: seq<Piece>, marks: set<Token>)
    requires rest != [] && Marked(rest, marks) && rest[0].op.Some? && rest[0].op.value in marks && forall t <- body :: t !in marks
    ensures var pieces := [Piece(op, body)] + rest;
            Marked(pieces, marks) && Rejoined(pieces) == body + [rest[0].op.value] + Rejoined(rest)
  {
    var pieces := [Piece(op, body)] + rest;
    assert pieces[1..] == rest && forall k | 0 < k < |pieces| :: pieces[k] == rest[k - 1];
  }

  lemma {:induction false} OnlyCut(op: Option<Token>, pieces: seq<Piece>, marks: set<Token>)
    requires pieces != [] && pieces[0].op == op && Marked(pieces, marks)
    ensures pieces == Cut(op, Rejoined(pieces), marks)
    decreases |pieces|
  {
    var body := pieces[0].body;
    assert forall k | 0 <= k < |body| :: body[k] in body;
    if |pieces| == 1 {
      CutNoMark(op, body, marks);
    } else {
      var rest := pieces[1..];
      assert forall k | 0 <= k < |rest| :: rest[k] == pieces[k + 1];
      OnlyCut(pieces[1].op, rest, marks);
      CutAtMark(op, body, pieces[1].op.value, Rejoined(rest), marks);
      assert pieces == [Piece(op, body)] + rest;
    }
  }

  /** The stretches are the one way to write the tokens as mark-free bodies with marks
      between them. */
  lemma CutExactly(tokens: seq<Token>, marks: set<Token>, pieces: seq<Piece>)
    ensures pieces == Cut(None, tokens, marks) <==>
            pieces != [] && pieces[0].op == None && Marked(pieces, marks) && Rejoined(pieces) == tokens
  {
    hide Cut;
    CutRejoins(None, tokens, marks);
    if pieces != [] && pieces[0].op == None && Marked(pieces, marks) { OnlyCut(None, pieces, marks); }
  }

  // ---- Pipelines and commands ---------------------------------------------------------------------

  /** The items are the pieces at these places, and no other piece has tokens. */
  predicate ItemsAt(items: seq<Item>, pieces: seq<Piece>, places: seq<nat>)
  {
    && |places| == |items|
    && (forall i, j | 0 <= i < j < |places| :: places[i] < places[j])
    && (forall i | 0 <= i < |places| :: ItemAt(items[i], pieces, places[i]))
    && (forall k | 0 <= k < |pieces| && pieces[k].body != [] :: k in places)
  }

  predicate ItemAt(item: Item, pieces: seq<Piece>, place: nat)
  {
    && place < |pieces| && pieces[place].body != []
    && item.op == pieces[place].op && PipelineOf(pieces[place].body) == Success(item.pipeline)
  }

  lemma {:induction false} ItemPlaces(pieces: seq<Piece>) returns (places: seq<nat>)
    requires ItemsOf(pieces).Success?
    ensures ItemsAt(ItemsOf(pieces).value, pieces, places)
    decreases |pieces|
  {
    hide PipelineOf, ItemsAt, LaterItems;
    if pieces == [] {
      places := [];
      NoItems();
    } else {
      var rest := ItemPlaces(pieces[1..]);
      places := Shifted(ItemsOf(pieces[1..]).value, pieces, rest);
      if pieces[0].body != [] {
        ghost var later := places;
        places := [0] + later;
        assert places[1..] == later && ItemsOf(pieces).value[1..] == ItemsOf(pieces[1..]).value;
        FirstPlace(ItemsOf(pieces).value, pieces, places);
      } else {
        NoFirstPlace(ItemsOf(pieces).value, pieces, places);
      }
    }
  }

  lemma NoItems()
    ensures ItemsAt([], [], [])
  {
  }

  /** The items lie at these places among the pieces from the second on. */
  predicate LaterItems(items: seq<Item>, pieces: seq<Piece>, places: seq<nat>)
  {
    && |places| == |items|
    && (forall i, j | 0 <= i < j < |places| :: places[i] < places[j])
    && (forall i | 0 <= i < |places| :: 0 < places[i] && ItemAt(items[i], pieces, places[i]))
    && (forall k | 0 < k < |pieces| && pieces[k].body != [] :: k in places)
  }

  lemma ItemShift(item: Item, pieces: seq<Piece>, place: nat)
    requires pieces != [] && ItemAt(item, pieces[1..], place)
    ensures ItemAt(item, pieces, place + 1)
  {
    hide PipelineOf;
    assert pieces[1..][place] == pieces[place + 1];
  }

  lemma Shifted(items: seq<Item>, pieces: seq<Piece>, rest: seq<nat>) returns (places: seq<nat>)
    requires pieces != [] && ItemsAt(items, pieces[1..], rest)
    ensures LaterItems(items, pieces, places)
  {
    hide ItemAt;
    places := seq(|rest|, k requires 0 <= k < |rest| => rest[k] + 1);
    forall i | 0 <= i < |places| ensures 0 < places[i] && ItemAt(items[i], pieces, places[i]) {
      ItemShift(items[i], pieces, rest[i]);
    }
    PlacesShift(pieces, rest, places);
  }

  lemma PlacesShift(pieces: seq<Piece>, rest: seq<nat>, places: seq<nat>)
    requires pieces != [] && forall k | 0 <= k < |pieces[1..]| && pieces[1..][k].body != [] :: k in rest
    requires |places| == |rest| && forall k | 0 <= k < |rest| :: places[k] == rest[k] + 1
    ensures forall k | 0 < k < |pieces| && pieces[k].body != [] :: k in places
  {
    forall k | 0 < k < |pieces| && pieces[k].body != [] ensures k in places {
      assert pieces[1..][k - 1] == pieces[k];
      var n :| 0 <= n < |rest| && rest[n] == k - 1;
      assert places[n] == k;
    }
  }

  lemma FirstPlace(items: seq<Item>, pieces: seq<Piece>, places: seq<nat>)
    requires items != [] && places != [] && places[0] == 0 && LaterItems(items[1..], pieces, places[1..]) && ItemAt(items[0], pieces, 0)
    ensures ItemsAt(items, pieces, places)
  {
    hide ItemAt;
    var later, rest := items[1..], places[1..];
    assert forall i | 0 < i < |places| :: places[i] == rest[i - 1] && items[i] == later[i - 1];
    forall k | 0 <= k < |pieces| && pieces[k].body != [] ensures k in places {
      if k > 0 { assert k in rest; }
    }
  }

  lemma NoFirstPlace(items: seq<Item>, pieces: seq<Piece>, places: seq<nat>)
    requires pieces != [] && pieces[0].body == [] && LaterItems(items, pieces, places)
    ensures ItemsAt(items, pieces, places)
  {
    hide ItemAt;
  }

  /** An accepted list has one item for each stretch with tokens, in order: the parse of the
      stretch and the separator right before it. */
  lemma ItemsAreStretches(tokens: seq<Token>) returns (places: seq<nat>)
    requires SequenceOf(tokens).Success?
    ensures ItemsAt(SequenceOf(tokens).value, Cut(None, tokens, {";", "&&", "||"}), places)
  {
    places := ItemPlaces(Cut(None, tokens, SEPARATORS));
  }

  lemma {:induction false} SidesInOrder(pieces: seq<Piece>)
    requires SidesOf(pieces).Success?
    ensures var p := SidesOf(pieces).value;
            |p| == |pieces| && forall k | 0 <= k < |p| :: CommandOf(pieces[k].body) == Success(p[k])
    decreases |pieces|
  {
    hide CommandOf;
    if pieces != [] {
      SidesInOrder(pieces[1..]);
      assert forall k | 0 < k < |pieces| :: pieces[k] == pieces[1..][k - 1];
    }
  }

  /** An accepted stretch has one command for each side of its pipes, in order. */
  lemma CommandsAreSides(tokens: seq<Token>)
    requires PipelineOf(tokens).Success?
    ensures var p := PipelineOf(tokens).value;
            if tokens == [] then p == []
            else
              var sides := Cut(None, tokens, {"|"});
              |p| == |sides| && forall k | 0 <= k < |p| :: CommandOf(sides[k].body) == Success(p[k])
  {
    hide CommandOf, Cut;
    if tokens != [] { SidesInOrder(Cut(None, tokens, PIPE)); }
  }

  lemma {:induction false} CommandGoesOn(cmd: Command, front: seq<Token>, more: seq<Token>)
    requires CommandFrom(cmd, front).Success?
    ensures CommandFrom(cmd, front + more) == CommandFrom(CommandFrom(cmd, front).value, more)
    decreases |front|
  {
    if front == [] {
      assert front + more == more;
    } else {
      var all := front + more;
      assert all[0] == front[0] && all[1..] == front[1..] + more;
      if front[0] in REDIRECTS {
        assert all[1] == front[1] && all[2..] == front[2..] + more;
        CommandGoesOn(WithRedirect(cmd, front[0], front[1]), front[2..], more);
      } else {
        CommandGoesOn(cmd.(args := cmd.args + [front[0]]), front[1..], more);
      }
    }
  }

  /** Token by token: no tokens, no command; a word after a whole command is its next
      argument, and a sign with its target sets that redirect, over any earlier one. */
  lemma CommandGrows(tokens: seq<Token>, t: Token, target: Token)
    requires CommandOf(tokens).Success?
    ensures tokens == [] ==> CommandOf(tokens).value == Command([], None, None, None)
    ensures var c := CommandOf(tokens).value;
            && (!Sign(t) ==> CommandOf(tokens + [t]) == Success(Command(c.args + [t], c.output, c.input, c.errors)))
            && (t == ">" ==> CommandOf(tokens + [t, target]) == Success(Command(c.args, Some(Redirect(target, false)), c.input, c.errors)))
            && (t == ">>" ==> CommandOf(tokens + [t, target]) == Success(Command(c.args, Some(Redirect(target, true)), c.input, c.errors)))
            && (t == "<" ==> CommandOf(tokens + [t, target]) == Success(Command(c.args, c.output, Some(target), c.errors)))
            && (t == "2>" ==> CommandOf(tokens + [t, target]) == Success(Command(c.args, c.output, c.input, Some(Redirect(target, false)))))
            && (t == "2>>" ==> CommandOf(tokens + [t, target]) == Success(Command(c.args, c.output, c.input, Some(Redirect(target, true)))))
  {
    CommandGoesOn(EMPTY, tokens, [t]);
    CommandGoesOn(EMPTY, tokens, [t, target]);
    assert [t][1..] == [] && [t, target][2..] == [];
    if !Sign(t) { OneToken(CommandOf(tokens).value, t); }
  }

  lemma OneToken(cmd: Command, t: Token)
    requires !Sign(t)
    ensures CommandFrom(cmd, [t]) == Success(cmd.(args := cmd.args + [t]))
  {
    assert [t][1..] == [];
  }
}
