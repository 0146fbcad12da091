/** The model's answer arrives as newline-framed events in chunks of any size. What the
    reader makes of it depends only on the bytes, not on where the chunks end. */
module ModelStream {
  import opened Wrappers
  import opened Inodes

  const LIMIT: nat := 262144
  const NEWLINE: Byte := 10

  /** A line that decodes to a well-typed event; `truncated` is done_reason "length". */
  datatype Event = Event(response: string, done: bool, truncated: bool)
  type Decoder = Bytes -> Option<Event>

  predicate Space(b: Byte) { b == 32 || 9 <= b <= 13 }

  /** `not line.strip()` */
  predicate Blank(line: Bytes) { forall k | 0 <= k < |line| :: Space(line[k]) }

  datatype Progress = Progress(text: string, completed: bool)

  const START := Progress("", false)

  /** One line: skipped, refused (None), or one more part. */
  function Feed(decode: Decoder, st: Progress, line: Bytes): Option<Progress>
  {
    if Blank(line) then Some(st)
    else
      var event := decode(line);
      if event.None? || st.completed || event.value.truncated then None
      else Some(Progress(st.text + event.value.response, event.value.done))
  }

  // ---- Splitting at newlines -----------------------------------------------------------

  function FirstNewline(s: Bytes): (i: nat)
    ensures i <= |s|
    ensures i < |s| ==> s[i] == NEWLINE
    ensures forall k | 0 <= k < i :: s[k] != NEWLINE
    decreases |s|
  {
    if s == [] || s[0] == NEWLINE then 0 else 1 + FirstNewline(s[1..])
  }

  function Lines(s: Bytes): seq<Bytes>
    decreases |s|
  {
    var i := FirstNewline(s);
    if i == |s| then [] else [s[..i]] + Lines(s[i + 1..])
  }

  function Rest(s: Bytes): Bytes
    decreases |s|
  {
    var i := FirstNewline(s);
    if i == |s| then s else Rest(s[i + 1..])
  }

  function Joined(lines: seq<Bytes>): Bytes
  {
    if lines == [] then [] else lines[0] + [NEWLINE] + Joined(lines[1..])
  }

  lemma SplitFirst(s: Bytes)
    requires FirstNewline(s) < |s|
    ensures var i := FirstNewline(s);
            Lines(s) == [s[..i]] + Lines(s[i + 1..]) && Rest(s) == Rest(s[i + 1..])
  {
    hide FirstNewline;
  }

  lemma CutAt(s: Bytes, i: nat)
    requires i < |s| && s[i] == NEWLINE
    ensures s == s[..i] + [NEWLINE] + s[i + 1..]
  {
  }

  lemma JoinedCons(line: Bytes, lines: seq<Bytes>)
    ensures Joined([line] + lines) == line + [NEWLINE] + Joined(lines)
  {
    assert ([line] + lines)[1..] == lines;
  }

  lemma {:induction false} SplitIsExact(s: Bytes)
    ensures Joined(Lines(s)) + Rest(s) == s
    decreases |s|
  {
    var i := FirstNewline(s);
    if i < |s| {
      hide Lines, Rest, Joined, FirstNewline;
      var head, tail := s[..i] + [NEWLINE], s[i + 1..];
      SplitFirst(s);
      CutAt(s, i);
      SplitIsExact(tail);
      JoinedCons(s[..i], Lines(tail));
      assert head + Joined(Lines(tail)) + Rest(tail) == head + (Joined(Lines(tail)) + Rest(tail));
    }
  }

  /** Splitting loses nothing and leaves no newline in any line. */
  lemma {:induction false} LinesAreLines(s: Bytes)
    ensures NEWLINE !in Rest(s) && forall k | 0 <= k < |Lines(s)| :: NEWLINE !in Lines(s)[k]
    ensures Joined(Lines(s)) + Rest(s) == s
    decreases |s|
  {
    hide Joined;
    SplitIsExact(s);
    var i := FirstNewline(s);
    if i < |s| {
      LinesAreLines(s[i + 1..]);
      assert Lines(s)[1..] == Lines(s[i + 1..]);
    }
  }

  lemma FirstNewlineAt(line: Bytes, tail: Bytes)
    requires NEWLINE !in line
    ensures FirstNewline(line + [NEWLINE] + tail) == |line|
  {
    var s := line + [NEWLINE] + tail;
    assert s[|line|] == NEWLINE;
    assert forall k | 0 <= k < |line| :: s[k] == line[k];
  }

  /** Any newline-free lines and rest are recovered from their concatenation. */
  lemma {:induction false} SplitOfJoined(lines: seq<Bytes>, rest: Bytes)
    requires NEWLINE !in rest && forall k | 0 <= k < |lines| :: NEWLINE !in lines[k]
    ensures Lines(Joined(lines) + rest) == lines && Rest(Joined(lines) + rest) == rest
    decreases |lines|
  {
    if lines == [] {
      assert Joined(lines) + rest == rest;
    } else {
      var tail := Joined(lines[1..]) + rest;
      var s := Joined(lines) + rest;
      assert s == lines[0] + [NEWLINE] + tail;
      FirstNewlineAt(lines[0], tail);
      assert s[..|lines[0]|] == lines[0] && s[|lines[0]| + 1..] == tail;
      SplitOfJoined(lines[1..], rest);
    }
  }

  // ---- What the whole stream means -------------------------------------------------------

  /** The events of the non-blank lines, in order; None where a line does not decode. */
  function Events(decode: Decoder, lines: seq<Bytes>): seq<Option<Event>>
  {
    if lines == [] then []
    else (if Blank(lines[0]) then [] else [decode(lines[0])]) + Events(decode, lines[1..])
  }

  /** Every line is an event, none truncated, and the last one, and only it, is done. */
  predicate Complete(events: seq<Option<Event>>)
  {
    && events != []
    && forall k | 0 <= k < |events| ::
         events[k].Some? && !events[k].value.truncated && (events[k].value.done <==> k == |events| - 1)
  }

  function Text(events: seq<Option<Event>>): string
  {
    if events == [] then ""
    else (if events[0].Some? then events[0].value.response else "") + Text(events[1..])
  }

  /** The outcome as a property of the whole byte string. */
  function StreamText(decode: Decoder, s: Bytes): Option<string>
  {
    var events := Events(decode, Lines(s));
    if |s| <= LIMIT && Complete(events) && Blank(Rest(s)) then Some(Text(events)) else None
  }

  // ---- The reader ---------------------------------------------------------------------------

  function Flatten(chunks: seq<Bytes>): Bytes
  {
    if chunks == [] then [] else chunks[0] + Flatten(chunks[1..])
  }

  /** Lines fed one by one, and the bytes after the last newline. */
  function Drain(decode: Decoder, st: Progress, s: Bytes): Option<(Progress, Bytes)>
    decreases |s|
  {
    var i := FirstNewline(s);
    if i == |s| then Some((st, s))
    else
      var next := Feed(decode, st, s[..i]);
      if next.None? then None else Drain(decode, next.value, s[i + 1..])
  }

  function Outcome(drained: Option<(Progress, Bytes)>): Option<string>
  {
    if drained.Some? && Blank(drained.value.1) && drained.value.0.completed then Some(drained.value.0.text) else None
  }

  lemma DrainLine(decode: Decoder, st: Progress, pending: Bytes, tail: Bytes)
    requires FirstNewline(pending) < |pending|
    ensures var i := FirstNewline(pending);
            var next := Feed(decode, st, pending[..i]);
            Drain(decode, st, pending + tail) ==
            if next.None? then None else Drain(decode, next.value, pending[i + 1..] + tail)
  {
    hide Feed;
    var i := FirstNewline(pending);
    var s := pending + tail;
    assert s == pending[..i] + [NEWLINE] + (pending[i + 1..] + tail);
    FirstNewlineAt(pending[..i], pending[i + 1..] + tail);
    assert s[..i] == pending[..i] && s[i + 1..] == pending[i + 1..] + tail;
  }

  lemma HasNewline(s: Bytes)
    ensures FirstNewline(s) < |s| <==> NEWLINE in s
  {
  }

  lemma DrainEnd(decode: Decoder, st: Progress, pending: Bytes)
    requires NEWLINE !in pending
    ensures Drain(decode, st, pending) == Some((st, pending))
  {
    HasNewline(pending);
  }

  lemma FlattenStep(chunks: seq<Bytes>, n: nat)
    requires n < |chunks|
    ensures Flatten(chunks[n..]) == chunks[n] + Flatten(chunks[n + 1..])
  {
    assert chunks[n..][0] == chunks[n] && chunks[n..][1..] == chunks[n + 1..];
  }

  /** The stream loop: for every chunking of a byte string the result, text or failure, is
      the one of the whole string. */
  method ReadStream(decode: Decoder, chunks: seq<Bytes>) returns (content: Option<string>)
    ensures content == StreamText(decode, Flatten(chunks))
  {
    hide Lines, Rest, Events, Complete, Text, Drain, StreamText;
    var pending: Bytes, text, received, completed := [], "", 0, false;
    var n := 0;
    ghost var all := Flatten(chunks);
    assert chunks[0..] == chunks && [] + all == all;
    DrainIsStreamText(decode, all);
    while n < |chunks|
      invariant 0 <= n <= |chunks| && received + |Flatten(chunks[n..])| == |all|
      invariant n > 0 ==> received <= LIMIT
      invariant received == 0 <== n == 0
      invariant NEWLINE !in pending
      invariant Drain(decode, START, all) == Drain(decode, Progress(text, completed), pending + Flatten(chunks[n..]))
    {
      ghost var tail := Flatten(chunks[n + 1..]);
      FlattenStep(chunks, n);
      assert pending + Flatten(chunks[n..]) == pending + chunks[n] + tail;
      pending := pending + chunks[n];
      received := received + |chunks[n]|;
      if received > LIMIT { return None; }
      while NEWLINE in pending
        invariant Drain(decode, START, all) == Drain(decode, Progress(text, completed), pending + tail)
        decreases |pending|
      {
        var i := FirstNewline(pending);
        DrainLine(decode, Progress(text, completed), pending, tail);
        var line := pending[..i];
        pending := pending[i + 1..];
        if !Blank(line) {
          var event := decode(line);
          if event.None? || completed { return None; }
          text := text + event.value.response;
          completed := event.value.done;
          if event.value.truncated { return None; }
        }
      }
      n := n + 1;
    }
    assert pending + Flatten(chunks[n..]) == pending;
    DrainEnd(decode, Progress(text, completed), pending);
    if !Blank(pending) || !completed { return None; }
    return Some(text);
  }

  // ---- The reader's steps amount to the whole-stream meaning --------------------------------

  function FeedAll(decode: Decoder, st: Progress, lines: seq<Bytes>): Option<Progress>
    decreases |lines|
  {
    if lines == [] then Some(st)
    else
      var next := Feed(decode, st, lines[0]);
      if next.None? then None else FeedAll(decode, next.value, lines[1..])
  }

  lemma {:induction false} DrainFeedsLines(decode: Decoder, st: Progress, s: Bytes)
    ensures var fed := FeedAll(decode, st, Lines(s));
            Drain(decode, st, s) == if fed.None? then None else Some((fed.value, Rest(s)))
    decreases |s|
  {
    hide Feed;
    var i := FirstNewline(s);
    if i < |s| {
      var next := Feed(decode, st, s[..i]);
      assert Lines(s)[0] == s[..i] && Lines(s)[1..] == Lines(s[i + 1..]);
      if next.Some? { DrainFeedsLines(decode, next.value, s[i + 1..]); }
    }
  }

  /** From an unfinished start, the fed lines succeed and complete exactly for a complete
      event list; from a finished one, exactly if no event follows. */
  lemma {:induction false} FedIffComplete(decode: Decoder, st: Progress, lines: seq<Bytes>)
    ensures var fed := FeedAll(decode, st, lines);
            var events := Events(decode, lines);
            if st.completed then
              (fed.Some? <==> events == []) && (fed.Some? ==> fed.value == st)
            else
              (fed.Some? && fed.value.completed <==> Complete(events))
              && (Complete(events) ==> fed.value.text == st.text + Text(events))
    decreases |lines|
  {
    if lines != [] {
      var events := Events(decode, lines);
      var later := Events(decode, lines[1..]);
      if Blank(lines[0]) {
        assert events == later;
        FedIffComplete(decode, st, lines[1..]);
      } else {
        assert events == [decode(lines[0])] + later;
        assert events[1..] == later;
        var next := Feed(decode, st, lines[0]);
        OneMoreEvent(decode(lines[0]), later);
        if next.Some? { FedIffComplete(decode, next.value, lines[1..]); }
      }
    }
  }

  lemma OneMoreEvent(event: Option<Event>, later: seq<Option<Event>>)
    ensures Complete([event] + later) <==>
            event.Some? && !event.value.truncated && (if event.value.done then later == [] else Complete(later))
  {
    var events := [event] + later;
    assert forall k | 0 <= k < |later| :: events[k + 1] == later[k];
    if Complete(events) {
      assert events[0] == event;
      forall k | 0 <= k < |later|
        ensures later[k].Some? && !later[k].value.truncated && (later[k].value.done <==> k == |later| - 1)
      {
        assert events[k + 1] == later[k];
      }
    }
  }

  lemma DrainIsStreamText(decode: Decoder, s: Bytes)
    ensures StreamText(decode, s) == if |s| <= LIMIT then Outcome(Drain(decode, START, s)) else None
  {
    hide Feed, Lines, Rest, Events, Complete, FeedAll, Drain, FirstNewline, Blank, Text;
    DrainFeedsLines(decode, START, s);
    FedIffComplete(decode, START, Lines(s));
    assert "" + Text(Events(decode, Lines(s))) == Text(Events(decode, Lines(s)));
  }

  // ---- Round trip -------------------------------------------------------------------------

  /** An encoder the decoder understands, one non-blank line an event. */
  ghost predicate Encodes(decode: Decoder, encode: Event -> Bytes)
  {
    forall e: Event :: decode(encode(e)) == Some(e) && NEWLINE !in encode(e) && !Blank(encode(e))
  }

  function Encoded(encode: Event -> Bytes, events: seq<Event>): seq<Bytes>
  {
    seq(|events|, k requires 0 <= k < |events| => encode(events[k]))
  }

  function Responses(events: seq<Event>): string
  {
    if events == [] then "" else events[0].response + Responses(events[1..])
  }

  lemma {:induction false} EventsOfEncoded(decode: Decoder, encode: Event -> Bytes, events: seq<Event>)
    requires Encodes(decode, encode)
    ensures var got := Events(decode, Encoded(encode, events));
            && |got| == |events| && (forall k | 0 <= k < |events| :: got[k] == Some(events[k]))
            && Text(got) == Responses(events)
    decreases |events|
  {
    if events != [] {
      var lines := Encoded(encode, events);
      assert lines[1..] == Encoded(encode, events[1..]);
      EventsOfEncoded(decode, encode, events[1..]);
      assert lines[0] == encode(events[0]);
      var got := Events(decode, lines);
      assert got == [Some(events[0])] + Events(decode, lines[1..]);
      assert got[1..] == Events(decode, lines[1..]);
    }
  }

  /** A well-formed answer, encoded and cut into any chunks, reads as exactly its parts. */
  lemma EncodedStreamReads(decode: Decoder, encode: Event -> Bytes, events: seq<Event>, padding: Bytes)
    requires Encodes(decode, encode) && events != []
    requires forall k | 0 <= k < |events| :: !events[k].truncated && (events[k].done <==> k == |events| - 1)
    requires Blank(padding) && NEWLINE !in padding
    requires |Joined(Encoded(encode, events)) + padding| <= LIMIT
    ensures StreamText(decode, Joined(Encoded(encode, events)) + padding) == Some(Responses(events))
  {
    EventsOfEncoded(decode, encode, events);
    SplitOfJoined(Encoded(encode, events), padding);
  }

  // ---- The answer, byte by byte --------------------------------------------------------------

  /** Tab, line feed, vertical tab, form feed, carriage return and space. */
  predicate White(line: Bytes)
  {
    forall b <- line :: b == 9 || b == 10 || b == 11 || b == 12 || b == 13 || b == 32
  }

  /** Every line closed by the byte 10. */
  function Terminated(lines: seq<Bytes>): Bytes
  {
    if lines == [] then [] else lines[0] + [10] + Terminated(lines[1..])
  }

  /** The lines that are not white decode to the events, in order. */
  ghost predicate Carries(decode: Decoder, lines: seq<Bytes>, events: seq<Event>)
    decreases |lines|
  {
    if lines == [] then events == []
    else if White(lines[0]) then Carries(decode, lines[1..], events)
    else events != [] && decode(lines[0]) == Some(events[0]) && Carries(decode, lines[1..], events[1..])
  }

  ghost predicate Spells(decode: Decoder, s: Bytes, lines: seq<Bytes>, rest: Bytes, events: seq<Event>)
  {
    && s == Terminated(lines) + rest && White(rest) && 10 !in rest
    && (forall k | 0 <= k < |lines| :: 10 !in lines[k])
    && Carries(decode, lines, events) && events != []
    && (forall k | 0 <= k < |events| :: !events[k].truncated && (events[k].done <==> k == |events| - 1))
  }

  lemma WhiteIsBlank(line: Bytes)
    ensures White(line) <==> Blank(line)
  {
    if White(line) {
      forall k | 0 <= k < |line| ensures Space(line[k]) { assert line[k] in line; }
    }
  }

  lemma {:induction false} TerminatedIsJoined(lines: seq<Bytes>)
    ensures Terminated(lines) == Joined(lines)
  {
    if lines != [] { TerminatedIsJoined(lines[1..]); }
  }

  function Somes(events: seq<Event>): seq<Option<Event>>
  {
    seq(|events|, k requires 0 <= k < |events| => Some(events[k]))
  }

  lemma {:induction false} CarriesMeans(decode: Decoder, lines: seq<Bytes>, events: seq<Event>)
    ensures Carries(decode, lines, events) <==> Events(decode, lines) == Somes(events)
    decreases |lines|
  {
    hide Blank, White;
    if lines != [] {
      WhiteIsBlank(lines[0]);
      var got := Events(decode, lines);
      if White(lines[0]) {
        assert got == Events(decode, lines[1..]);
        CarriesMeans(decode, lines[1..], events);
      } else {
        assert got == [decode(lines[0])] + Events(decode, lines[1..]);
        if events != [] {
          CarriesMeans(decode, lines[1..], events[1..]);
          assert Somes(events) == [Some(events[0])] + Somes(events[1..]);
          assert got[1..] == Events(decode, lines[1..]) && Somes(events)[1..] == Somes(events[1..]);
        }
      }
    }
  }

  lemma {:induction false} TextOfSomes(events: seq<Event>)
    ensures Text(Somes(events)) == Responses(events)
  {
    if events != [] {
      assert Somes(events)[1..] == Somes(events[1..]);
      TextOfSomes(events[1..]);
    }
  }

  lemma CompleteSomes(events: seq<Event>)
    ensures Complete(Somes(events)) <==>
            events != [] && forall k | 0 <= k < |events| :: !events[k].truncated && (events[k].done <==> k == |events| - 1)
  {
    var somes := Somes(events);
    assert |somes| == |events| && forall k | 0 <= k < |events| :: somes[k] == Some(events[k]);
    if Complete(somes) {
      forall k | 0 <= k < |events| ensures !events[k].truncated && (events[k].done <==> k == |events| - 1) {
        assert somes[k] == Some(events[k]);
      }
    }
  }

  lemma CompleteIsSomes(decode: Decoder, lines: seq<Bytes>) returns (events: seq<Event>)
    requires Complete(Events(decode, lines))
    ensures Events(decode, lines) == Somes(events)
  {
    var got := Events(decode, lines);
    events := seq(|got|, k requires 0 <= k < |got| => got[k].value);
  }

  /** A byte string reads as a text exactly if it has at most 262144 bytes, and its lines
      are whole events of which the last, and only it, is done, with that text in all. */
  lemma ReadsExactly(decode: Decoder, s: Bytes, text: string)
    ensures StreamText(decode, s) == Some(text) <==>
            |s| <= 262144 && exists lines, rest, events :: Spells(decode, s, lines, rest, events) && text == Responses(events)
  {
    hide Lines, Rest, Events, Complete, Blank, White, Text, Responses, Joined, Terminated, Carries;
    if StreamText(decode, s) == Some(text) {
      var lines, rest := Lines(s), Rest(s);
      LinesAreLines(s);
      var events := CompleteIsSomes(decode, lines);
      TerminatedIsJoined(lines);
      WhiteIsBlank(rest);
      CarriesMeans(decode, lines, events);
      CompleteSomes(events);
      TextOfSomes(events);
      assert Spells(decode, s, lines, rest, events);
    }
    if |s| <= 262144 && exists lines, rest, events :: Spells(decode, s, lines, rest, events) && text == Responses(events) {
      var lines, rest, events :| Spells(decode, s, lines, rest, events) && text == Responses(events);
      TerminatedIsJoined(lines);
      SplitOfJoined(lines, rest);
      WhiteIsBlank(rest);
      CarriesMeans(decode, lines, events);
      CompleteSomes(events);
      TextOfSomes(events);
    }
  }
}
