/** Waiting for one JSON-RPC answer on an event stream that arrives in chunks. */
module SseReader {
  import opened Text
  import opened Wrappers

  /** What JSON.parse yields, as far as the reader looks: `null` has no properties at all; any other
      value may carry an id, a truthy error and a result. */
  datatype Json = Null | Value(id: Option<int>, error: Option<string>, result: string)

  /** The reader's verdict on a line, a frame or a stream. Reading `.id` of `null` throws. */
  datatype Hit = Miss | Result(result: string) | RpcError(error: string) | TypeError

  /** Characters `.` does not match in a regular expression. */
  predicate IsLineTerminator(c: char) {
    c in {'\n', '\r', '\U{2028}', '\U{2029}'}
  }

  /** Characters `\s` matches. */
  predicate IsSpace(c: char) {
    || c in {'\t', '\n', '\U{B}', '\U{C}', '\r', ' ', '\U{A0}', '\U{1680}'}
    || c in {'\U{2028}', '\U{2029}', '\U{202F}', '\U{205F}', '\U{3000}', '\U{FEFF}'}
    || '\U{2000}' <= c <= '\U{200A}'
  }

  predicate OneLine(s: string) {
    forall c :: c in s ==> !IsLineTerminator(c)
  }

  /** The group captured by /^data:\s?(.*)$/. */
  function Payload(line: string): Option<string> {
    if !StartsWith(line, "data:") then None
    else
      var rest := line[5..];
      var text := if |rest| > 0 && IsSpace(rest[0]) then rest[1..] else rest;
      if OneLine(text) then Some(text) else None
  }

  /** The verdict on a message text. */
  function MessageHit(message: string, id: int, parse: string -> Option<Json>): Hit {
    match parse(message)
    case None => Miss
    case Some(Null) => TypeError
    case Some(Value(id', error, result)) =>
      if id' != Some(id) then Miss
      else if error.Some? then RpcError(error.value)
      else Result(result)
  }

  function LineHit(line: string, id: int, parse: string -> Option<Json>): Hit {
    match Payload(line)
    case None => Miss
    case Some(text) => if text == "" then Miss else MessageHit(text, id, parse)
  }

  /** The first line that is no miss. */
  function LinesHit(lines: seq<string>, id: int, parse: string -> Option<Json>): Hit {
    if |lines| == 0 then Miss
    else
      var hit := LineHit(lines[0], id, parse);
      if hit != Miss then hit else LinesHit(lines[1..], id, parse)
  }

  function FrameHit(frame: string, id: int, parse: string -> Option<Json>): Hit {
    LinesHit(Split(frame, "\n"), id, parse)
  }

  /** The first frame that is no miss. */
  function FramesHit(frames: seq<string>, id: int, parse: string -> Option<Json>): Hit {
    if |frames| == 0 then Miss
    else
      var hit := FrameHit(frames[0], id, parse);
      if hit != Miss then hit else FramesHit(frames[1..], id, parse)
  }

  /** Parsing a whole stream at once: only frames closed by a blank line count. */
  function OneShot(stream: string, id: int, parse: string -> Option<Json>): Hit {
    FramesHit(Complete(stream, "\n\n"), id, parse)
  }

  function Concat(chunks: seq<string>): string {
    if |chunks| == 0 then "" else Concat(chunks[..|chunks| - 1]) + chunks[|chunks| - 1]
  }

  lemma {:induction false} FramesHitAppend(a: seq<string>, b: seq<string>, id: int, parse: string -> Option<Json>)
    ensures FramesHit(a + b, id, parse)
         == if FramesHit(a, id, parse) != Miss then FramesHit(a, id, parse) else FramesHit(b, id, parse)
  {
    hide FrameHit;
    if |a| == 0 {
      assert a + b == b;
    } else {
      FramesHitAppend(a[1..], b, id, parse);
      assert (a + b)[1..] == a[1..] + b;
    }
  }

  lemma LinesHitStep(lines: seq<string>, i: nat, id: int, parse: string -> Option<Json>)
    requires i < |lines|
    ensures LinesHit(lines[i..], id, parse)
         == if LineHit(lines[i], id, parse) != Miss then LineHit(lines[i], id, parse)
            else LinesHit(lines[i + 1..], id, parse)
  {
    assert lines[i..][1..] == lines[i + 1..];
  }

  /** What is found early is still what is found when more text follows. */
  lemma OneShotAppend(s: string, more: string, id: int, parse: string -> Option<Json>)
    ensures OneShot(s + more, id, parse)
         == if OneShot(s, id, parse) != Miss then OneShot(s, id, parse)
            else OneShot(Remainder(s, "\n\n") + more, id, parse)
  {
    hide Split, FramesHit;
    var frames := Complete(s, "\n\n");
    var later := Complete(Remainder(s, "\n\n") + more, "\n\n");
    SplitAppend(s, more, "\n\n");
    assert Complete(s + more, "\n\n") == frames + later;
    FramesHitAppend(frames, later, id, parse);
  }

  lemma {:induction false} ConcatPrefix(chunks: seq<string>, r: nat, n: nat, id: int, parse: string -> Option<Json>)
    requires r <= n <= |chunks|
    requires OneShot(Concat(chunks[..r]), id, parse) != Miss
    ensures OneShot(Concat(chunks[..n]), id, parse) == OneShot(Concat(chunks[..r]), id, parse)
    decreases n
  {
    hide OneShot;
    if r == n {
    } else {
      ConcatPrefix(chunks, r, n - 1, id, parse);
      assert chunks[..n][..n - 1] == chunks[..n - 1];
      OneShotAppend(Concat(chunks[..n - 1]), chunks[n - 1], id, parse);
    }
  }

  function Min(a: nat, b: nat): nat {
    if a < b then a else b
  }

  /** Reading chunk by chunk. The clock lets the loop start at most `rounds` times. `Miss` stands for
      "no response for id". */
  method ReadSseForId(chunks: seq<string>, rounds: nat, id: int, parse: string -> Option<Json>) returns (hit: Hit)
    ensures hit == OneShot(Concat(chunks[..Min(rounds, |chunks|)]), id, parse)
    ensures Verdict(Messages(Concat(chunks[..Min(rounds, |chunks|)])), id, parse, hit)
  {
    var buf := "";
    var r := 0;
    ghost var n := Min(rounds, |chunks|);
    hide OneShot, Split, FrameHit, Concat, Verdict, Messages;
    OutcomeIff(Concat(chunks[..n]), id, parse, OneShot(Concat(chunks[..n]), id, parse));
    StartOfStream(id, parse);
    assert chunks[..0] == [];
    while r < rounds
      invariant r <= n
      invariant buf == Remainder(Concat(chunks[..r]), "\n\n")
      invariant OneShot(Concat(chunks[..r]), id, parse) == Miss
    {
      if r == |chunks| {
        break;
      }
      ghost var before := Concat(chunks[..r]);
      var open := buf + chunks[r];
      ConcatStep(chunks, r);
      OneShotAppend(before, chunks[r], id, parse);
      SplitAppend(before, chunks[r], "\n\n");
      assert Remainder(before + chunks[r], "\n\n") == Remainder(open, "\n\n");
      hit, buf := CutFrames(open, id, parse);
      r := r + 1;
      if hit != Miss {
        ConcatPrefix(chunks, r, n, id, parse);
        return;
      }
    }
    hit := Miss;
  }

  lemma ConcatStep(chunks: seq<string>, r: nat)
    requires r < |chunks|
    ensures Concat(chunks[..r + 1]) == Concat(chunks[..r]) + chunks[r]
  {
    assert chunks[..r + 1][..r] == chunks[..r];
  }

  lemma StartOfStream(id: int, parse: string -> Option<Json>)
    ensures Remainder("", "\n\n") == "" && OneShot(Concat([]), id, parse) == Miss
  {
  }

  lemma FirstFrame(buf: string, frame: string, rest: string, id: int, parse: string -> Option<Json>)
    requires Split(buf, "\n\n") == [frame] + Split(rest, "\n\n")
    ensures OneShot(buf, id, parse)
         == if FrameHit(frame, id, parse) != Miss then FrameHit(frame, id, parse) else OneShot(rest, id, parse)
    ensures Remainder(buf, "\n\n") == Remainder(rest, "\n\n")
  {
    hide FrameHit, Split;
    assert Complete(buf, "\n\n") == [frame] + Complete(rest, "\n\n");
  }

  /** The inner loop: frames are cut off the front of the buffer and searched one at a time. */
  method CutFrames(open: string, id: int, parse: string -> Option<Json>) returns (hit: Hit, buf: string)
    ensures hit == OneShot(open, id, parse)
    ensures hit == Miss ==> buf == Remainder(open, "\n\n")
  {
    buf := open;
    var sep := IndexOf(buf, "\n\n");
    hide FrameHit;
    while sep >= 0
      invariant sep == IndexOf(buf, "\n\n")
      invariant OneShot(open, id, parse) == OneShot(buf, id, parse)
      invariant Remainder(open, "\n\n") == Remainder(buf, "\n\n")
      decreases |buf|
    {
      ghost var _, rest := CutFirst(buf, "", "\n\n");
      var frame := buf[..sep];
      FirstFrame(buf, frame, rest, id, parse);
      buf := buf[sep + 2..];
      hit := SearchLines(frame, id, parse);
      if hit != Miss {
        return;
      }
      sep := IndexOf(buf, "\n\n");
    }
    hit := Miss;
  }

  method SearchLines(frame: string, id: int, parse: string -> Option<Json>) returns (hit: Hit)
    ensures hit == FrameHit(frame, id, parse)
  {
    var lines := Split(frame, "\n");
    hide Split, LineHit;
    for i := 0 to |lines|
      invariant LinesHit(lines, id, parse) == LinesHit(lines[i..], id, parse)
    {
      LinesHitStep(lines, i, id, parse);
      hit := LineHit(lines[i], id, parse);
      if hit != Miss {
        return;
      }
    }
    assert lines[|lines|..] == [];
    hit := Miss;
  }

  /** After any amount of text the open buffer holds no frame separator, and what was consumed plus
      the buffer is exactly what was read. */
  lemma NothingIsLost(read: string)
    ensures !Contains(Remainder(read, "\n\n"), "\n\n")
    ensures Join(Complete(read, "\n\n") + [Remainder(read, "\n\n")], "\n\n") == read
  {
    PartsAreCut(read, "\n\n");
    JoinSplit(read, "\n\n");
    hide Split;
    var parts := Split(read, "\n\n");
    assert parts[..|parts| - 1] + [parts[|parts| - 1]] == parts;
  }

  // ------------------------------------------------------- the messages of a stream

  /** The first message that is an answer, judged without any framing. */
  function FirstAnswer(messages: seq<string>, id: int, parse: string -> Option<Json>): Hit {
    if |messages| == 0 then Miss
    else
      var hit := MessageHit(messages[0], id, parse);
      if hit != Miss then hit else FirstAnswer(messages[1..], id, parse)
  }

  lemma {:induction false} FirstAnswerConcat(a: seq<string>, b: seq<string>, id: int, parse: string -> Option<Json>)
    ensures FirstAnswer(a + b, id, parse)
         == if FirstAnswer(a, id, parse) != Miss then FirstAnswer(a, id, parse) else FirstAnswer(b, id, parse)
  {
    hide MessageHit;
    if |a| == 0 {
      assert a + b == b;
    } else {
      FirstAnswerConcat(a[1..], b, id, parse);
      assert (a + b)[1..] == a[1..] + b;
    }
  }

  /** The texts of the data lines that the reader takes to be messages, in order. */
  function LineMessages(lines: seq<string>): seq<string> {
    if |lines| == 0 then []
    else
      (match Payload(lines[0])
       case None => []
       case Some(text) => if text == "" then [] else [text]) + LineMessages(lines[1..])
  }

  function FrameMessages(frames: seq<string>): seq<string> {
    if |frames| == 0 then [] else LineMessages(Split(frames[0], "\n")) + FrameMessages(frames[1..])
  }

  function Messages(stream: string): seq<string> {
    FrameMessages(Complete(stream, "\n\n"))
  }

  lemma {:induction false} LinesHitMessages(lines: seq<string>, id: int, parse: string -> Option<Json>)
    ensures LinesHit(lines, id, parse) == FirstAnswer(LineMessages(lines), id, parse)
  {
    hide MessageHit, Payload;
    if |lines| == 0 {
    } else {
      LinesHitMessages(lines[1..], id, parse);
      var first: seq<string> := match Payload(lines[0])
        case None => []
        case Some(text) => if text == "" then [] else [text];
      FirstAnswerConcat(first, LineMessages(lines[1..]), id, parse);
      assert FirstAnswer(first, id, parse) == LineHit(lines[0], id, parse);
    }
  }

  lemma {:induction false} FramesHitMessages(frames: seq<string>, id: int, parse: string -> Option<Json>)
    ensures FramesHit(frames, id, parse) == FirstAnswer(FrameMessages(frames), id, parse)
  {
    hide LinesHit, LineMessages, FirstAnswer, Split;
    if |frames| == 0 {
      NoAnswer(id, parse);
    } else {
      FramesHitMessages(frames[1..], id, parse);
      LinesHitMessages(Split(frames[0], "\n"), id, parse);
      FirstAnswerConcat(LineMessages(Split(frames[0], "\n")), FrameMessages(frames[1..]), id, parse);
    }
  }

  lemma NoAnswer(id: int, parse: string -> Option<Json>)
    ensures FirstAnswer([], id, parse) == Miss
  {
  }

  /** The reader reports the first of the stream's messages that answers the id. */
  lemma OneShotReadsMessages(stream: string, id: int, parse: string -> Option<Json>)
    ensures OneShot(stream, id, parse) == FirstAnswer(Messages(stream), id, parse)
  {
    hide FramesHit, FrameMessages, FirstAnswer;
    FramesHitMessages(Complete(stream, "\n\n"), id, parse);
  }

  /** The reader goes on: the text is not JSON, or it is a message with another id or none. */
  ghost predicate PassedOver(text: string, id: int, parse: string -> Option<Json>) {
    match parse(text)
    case None => true
    case Some(json) => json.Value? && json.id != Some(id)
  }

  /** Message i is the first that the reader does not pass over. */
  ghost predicate StopsAt(messages: seq<string>, i: nat, id: int, parse: string -> Option<Json>)
    requires i < |messages|
  {
    !PassedOver(messages[i], id, parse) && forall j :: 0 <= j < i ==> PassedOver(messages[j], id, parse)
  }

  /** What the caller gets for these messages: the first one that carries the id decides, by its error if it has
      one and else by its result; null throws if it comes before; without either there is no response. */
  ghost predicate Verdict(messages: seq<string>, id: int, parse: string -> Option<Json>, hit: Hit) {
    match hit
    case Miss => forall i :: 0 <= i < |messages| ==> PassedOver(messages[i], id, parse)
    case TypeError =>
      exists i :: 0 <= i < |messages| && StopsAt(messages, i, id, parse) && parse(messages[i]) == Some(Null)
    case RpcError(error) =>
      exists i :: 0 <= i < |messages| && StopsAt(messages, i, id, parse)
        && exists result :: parse(messages[i]) == Some(Value(Some(id), Some(error), result))
    case Result(result) =>
      exists i :: 0 <= i < |messages| && StopsAt(messages, i, id, parse)
        && parse(messages[i]) == Some(Value(Some(id), None, result))
  }

  lemma {:induction false} FirstAnswerIsVerdict(messages: seq<string>, id: int, parse: string -> Option<Json>)
    ensures Verdict(messages, id, parse, FirstAnswer(messages, id, parse))
  {
    if |messages| == 0 {
    } else if PassedOver(messages[0], id, parse) {
      FirstAnswerIsVerdict(messages[1..], id, parse);
      VerdictGoesOn(messages, id, parse, FirstAnswer(messages[1..], id, parse));
    } else {
      assert StopsAt(messages, 0, id, parse);
    }
  }

  lemma VerdictGoesOn(messages: seq<string>, id: int, parse: string -> Option<Json>, hit: Hit)
    requires |messages| > 0 && PassedOver(messages[0], id, parse) && Verdict(messages[1..], id, parse, hit)
    ensures Verdict(messages, id, parse, hit)
  {
    hide PassedOver;
    var rest := messages[1..];
    assert forall j :: 0 < j < |messages| ==> messages[j] == rest[j - 1];
    forall i | 0 <= i < |rest| && StopsAt(rest, i, id, parse)
      ensures StopsAt(messages, i + 1, id, parse) && messages[i + 1] == rest[i]
    {
    }
  }

  lemma VerdictIsUnique(messages: seq<string>, id: int, parse: string -> Option<Json>, a: Hit, b: Hit)
    requires Verdict(messages, id, parse, a) && Verdict(messages, id, parse, b)
    ensures a == b
  {
    forall i, j | 0 <= i < |messages| && 0 <= j < |messages| && StopsAt(messages, i, id, parse)
        && StopsAt(messages, j, id, parse)
      ensures i == j
    {
    }
  }

  /** For every stream, the reader's outcome is the verdict on its messages and nothing else is. */
  lemma OutcomeIff(stream: string, id: int, parse: string -> Option<Json>, hit: Hit)
    ensures OneShot(stream, id, parse) == hit <==> Verdict(Messages(stream), id, parse, hit)
  {
    hide OneShot, Messages, FirstAnswer, Verdict;
    OneShotReadsMessages(stream, id, parse);
    FirstAnswerIsVerdict(Messages(stream), id, parse);
    if Verdict(Messages(stream), id, parse, hit) {
      VerdictIsUnique(Messages(stream), id, parse, hit, FirstAnswer(Messages(stream), id, parse));
    }
  }

  /** In particular, it throws a type error exactly when one of the messages is null and no message before that
      one carries the id or is null. */
  lemma TypeErrorIff(stream: string, id: int, parse: string -> Option<Json>)
    ensures OneShot(stream, id, parse) == TypeError
      <==> exists i :: 0 <= i < |Messages(stream)| && parse(Messages(stream)[i]) == Some(Null)
                       && forall j :: 0 <= j < i ==> PassedOver(Messages(stream)[j], id, parse)
  {
    hide OneShot, Messages;
    OutcomeIff(stream, id, parse, TypeError);
    assert forall i :: 0 <= i < |Messages(stream)| && parse(Messages(stream)[i]) == Some(Null) ==>
      !PassedOver(Messages(stream)[i], id, parse);
    hide PassedOver;
  }

  /** A line is a message of this text exactly if it is "data:", at most one white space, and the text, where
      the text holds no line end and begins with white space only behind another one. */
  lemma PayloadIff(line: string, text: string)
    ensures Payload(line) == Some(text) <==>
      && OneLine(text)
      && (|| (line == "data:" + text && (text == "" || !IsSpace(text[0])))
          || exists c :: IsSpace(c) && line == "data:" + [c] + text)
  {
    hide OneLine, IsSpace;
    if StartsWith(line, "data:") {
      var rest := line[5..];
      assert line == "data:" + rest;
      if |rest| > 0 && IsSpace(rest[0]) {
        assert line == "data:" + [rest[0]] + rest[1..];
      }
      if line == "data:" + text {
        assert rest == text;
      }
      forall c | line == "data:" + [c] + text
        ensures rest == [c] + text
      {
      }
    }
  }

  // ------------------------------------------------------- what a server writes is what is read

  /** One `data:` frame per message. */
  function Encode(messages: seq<string>): string {
    if |messages| == 0 then "" else "data: " + messages[0] + "\n\n" + Encode(messages[1..])
  }

  lemma DataLine(message: string, id: int, parse: string -> Option<Json>)
    requires message != "" && OneLine(message)
    ensures FrameHit("data: " + message, id, parse) == MessageHit(message, id, parse)
    ensures Closes("data: " + message, "\n\n")
  {
    var line := "data: " + message;
    assert '\n' !in "data: ";
    assert forall c :: c in line ==> c in "data: " || c in message;
    ClosesWithout(line, "\n");
    ClosesWithout(line, "\n\n");
    assert Split(line, "\n") == [line];
    assert line[5..] == " " + message;
    assert Payload(line) == Some(message);
    assert LinesHit([line], id, parse) == LineHit(line, id, parse);
  }

  /** Round trip: for any list of single-line messages, encoded as frames and cut into chunks in any
      way, the reader's outcome is the verdict on these messages. */
  lemma {:induction false} EncodedMessagesAreRead(messages: seq<string>, id: int, parse: string -> Option<Json>)
    requires forall i :: 0 <= i < |messages| ==> messages[i] != "" && OneLine(messages[i])
    ensures OneShot(Encode(messages), id, parse) == FirstAnswer(messages, id, parse)
    ensures Verdict(messages, id, parse, OneShot(Encode(messages), id, parse))
  {
    hide Verdict, OneShot, FrameHit;
    FirstAnswerIsVerdict(messages, id, parse);
    if |messages| == 0 {
      StartOfStream(id, parse);
    } else {
      var frame, rest := "data: " + messages[0], Encode(messages[1..]);
      EncodedMessagesAreRead(messages[1..], id, parse);
      DataLine(messages[0], id, parse);
      SplitFirst(frame, rest, "\n\n");
      FirstFrame(Encode(messages), frame, rest, id, parse);
    }
  }

  /** A single null does it, whatever the id. */
  lemma NullThrows(id: int, parse: string -> Option<Json>)
    requires parse("null") == Some(Null)
    ensures OneShot("data: null\n\n", id, parse) == TypeError
  {
    assert OneLine("null");
    EncodedMessagesAreRead(["null"], id, parse);
    hide OneShot;
    assert "data: " + "null" + "\n\n" + Encode([]) == "data: null\n\n";
    assert ["null"][1..] == [];
    assert Encode(["null"]) == "data: null\n\n";
  }
}
