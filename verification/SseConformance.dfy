/** The MCP client's reader held against the standard: which event streams both read alike. */
module SseConformance {
  import opened Text
  import opened Wrappers
  import opened SseReader
  import EventStreams

  /** The reader cannot be told from a standard one on this stream, whatever id is wanted and however texts
      parse; the empty text is not JSON. */
  ghost predicate ReadsAlike(stream: string) {
    forall id: int, parse: string -> Option<Json> | parse("") == None ::
      OneShot(stream, id, parse) == FirstAnswer(EventStreams.Events(stream), id, parse)
  }

  // ------------------------------------------------------- when two lists of messages are told apart

  /** Each text once, where it first occurs. */
  function Firsts(xs: seq<string>): seq<string> {
    if |xs| == 0 then []
    else
      var last, before := xs[|xs| - 1], Firsts(xs[..|xs| - 1]);
      if last in before then before else before + [last]
  }

  lemma {:induction false} FirstsKeep(xs: seq<string>)
    ensures Distinct(Firsts(xs))
    ensures forall x :: x in Firsts(xs) <==> x in xs
  {
    if |xs| == 0 {
    } else {
      FirstsKeep(xs[..|xs| - 1]);
      assert forall x :: x in xs <==> x in xs[..|xs| - 1] || x == xs[|xs| - 1];
    }
  }

  lemma {:induction false} MissIff(xs: seq<string>, id: int, parse: string -> Option<Json>)
    ensures FirstAnswer(xs, id, parse) == Miss <==> forall x :: x in xs ==> MessageHit(x, id, parse) == Miss
  {
    hide MessageHit;
    if |xs| == 0 {
    } else {
      MissIff(xs[1..], id, parse);
      assert forall x :: x in xs <==> x == xs[0] || x in xs[1..];
    }
  }

  lemma {:induction false} FirstsAnswer(xs: seq<string>, id: int, parse: string -> Option<Json>)
    ensures FirstAnswer(Firsts(xs), id, parse) == FirstAnswer(xs, id, parse)
  {
    hide MessageHit;
    if |xs| == 0 {
    } else {
      var init, last := xs[..|xs| - 1], xs[|xs| - 1];
      FirstsAnswer(init, id, parse);
      FirstAnswerConcat(init, [last], id, parse);
      FirstAnswerConcat(Firsts(init), [last], id, parse);
      MissIff(Firsts(init), id, parse);
      MissIff([last], id, parse);
      hide FirstAnswer;
      assert xs == init + [last];
    }
  }

  lemma {:induction false} NonEmptyAnswer(xs: seq<string>, id: int, parse: string -> Option<Json>)
    requires parse("") == None
    ensures FirstAnswer(NonEmpty(xs), id, parse) == FirstAnswer(xs, id, parse)
  {
    if |xs| == 0 {
    } else {
      NonEmptyAnswer(xs[1..], id, parse);
      var first: seq<string> := if xs[0] == "" then [] else [xs[0]];
      FirstAnswerConcat(first, NonEmpty(xs[1..]), id, parse);
    }
  }

  lemma {:induction false} NonEmptyIff(xs: seq<string>, x: string)
    ensures x in NonEmpty(xs) <==> x in xs && x != ""
  {
    if |xs| == 0 {
    } else {
      NonEmptyIff(xs[1..], x);
      assert x in xs <==> x == xs[0] || x in xs[1..];
    }
  }

  lemma {:induction false} AnswersAt(xs: seq<string>, k: nat, id: int, parse: string -> Option<Json>)
    requires k < |xs| && MessageHit(xs[k], id, parse) != Miss
    requires forall j :: 0 <= j < k ==> MessageHit(xs[j], id, parse) == Miss
    ensures FirstAnswer(xs, id, parse) == MessageHit(xs[k], id, parse)
  {
    hide MessageHit;
    if k == 0 {
    } else {
      assert MessageHit(xs[0], id, parse) == Miss;
      AnswersAt(xs[1..], k - 1, id, parse);
    }
  }

  /** Only these two texts are answers, with different results. */
  function Picks(a: string, b: string): string -> Option<Json> {
    (text: string) =>
      if text == a then Some(Value(Some(0), None, "first"))
      else if text == b then Some(Value(Some(0), None, "second"))
      else None
  }

  lemma {:induction false} CommonPart(u: seq<string>, v: seq<string>) returns (i: nat)
    requires u != v
    ensures i <= |u| && i <= |v| && u[..i] == v[..i]
    ensures i < |u| || i < |v|
    ensures i < |u| && i < |v| ==> u[i] != v[i]
  {
    if |u| == 0 || |v| == 0 || u[0] != v[0] {
      i := 0;
      assert |u| > 0 || |v| > 0;
    } else {
      assert u == [u[0]] + u[1..] && v == [v[0]] + v[1..];
      var k := CommonPart(u[1..], v[1..]);
      i := k + 1;
      assert u[..i] == [u[0]] + u[1..][..k] && v[..i] == [v[0]] + v[1..][..k];
    }
  }

  lemma NewAt(xs: seq<string>, i: nat, j: nat)
    requires Distinct(xs) && i < |xs| && j < i
    ensures xs[j] != xs[i]
  {
  }

  /** Two different lists without repeats are told apart by some reading. */
  lemma ToldApart(u: seq<string>, v: seq<string>)
    requires Distinct(u) && Distinct(v) && u != v && "" !in u && "" !in v
    ensures exists id: int, parse: string -> Option<Json> ::
      parse("") == None && FirstAnswer(u, id, parse) != FirstAnswer(v, id, parse)
  {
    var i := CommonPart(u, v);
    assert forall j :: 0 <= j < i ==> u[j] == u[..i][j] == v[..i][j] == v[j];
    var a := if i < |u| then u[i] else v[i];
    var b := if i < |v| then v[i] else u[i];
    var parse := Picks(a, b);
    forall j | 0 <= j < i
      ensures MessageHit(u[j], 0, parse) == Miss && MessageHit(v[j], 0, parse) == Miss
    {
      if i < |u| {
        NewAt(u, i, j);
      }
      if i < |v| {
        NewAt(v, i, j);
      }
    }
    SideAnswers(u, i, 0, parse);
    SideAnswers(v, i, 0, parse);
    assert FirstAnswer(u, 0, parse) != FirstAnswer(v, 0, parse);
  }

  lemma SideAnswers(xs: seq<string>, i: nat, id: int, parse: string -> Option<Json>)
    requires i <= |xs| && forall j :: 0 <= j < i ==> MessageHit(xs[j], id, parse) == Miss
    requires i < |xs| ==> MessageHit(xs[i], id, parse) != Miss
    ensures FirstAnswer(xs, id, parse) == if i < |xs| then MessageHit(xs[i], id, parse) else Miss
  {
    hide MessageHit;
    if i < |xs| {
      AnswersAt(xs, i, id, parse);
    } else {
      MissIff(xs, id, parse);
    }
  }

  lemma {:induction false} LineMessagesAreNonEmpty(lines: seq<string>)
    ensures "" !in LineMessages(lines)
  {
    hide Payload;
    if |lines| == 0 {
    } else {
      LineMessagesAreNonEmpty(lines[1..]);
    }
  }

  lemma {:induction false} FrameMessagesAreNonEmpty(frames: seq<string>)
    ensures "" !in FrameMessages(frames)
  {
    hide LineMessages, Split;
    if |frames| == 0 {
    } else {
      FrameMessagesAreNonEmpty(frames[1..]);
      LineMessagesAreNonEmpty(Split(frames[0], "\n"));
    }
  }

  /** Exactly which streams are read alike: those whose single data lines, as the reader takes them, are the
      data of the standard's events, up to empty ones and repeats. */
  lemma ReadsAlikeIff(stream: string)
    ensures ReadsAlike(stream) <==> Firsts(Messages(stream)) == Firsts(NonEmpty(EventStreams.Events(stream)))
  {
    var events := EventStreams.Events(stream);
    var u, v := Firsts(Messages(stream)), Firsts(NonEmpty(events));
    FirstsKeep(Messages(stream));
    FirstsKeep(NonEmpty(events));
    FrameMessagesAreNonEmpty(Complete(stream, "\n\n"));
    NonEmptyIff(events, "");
    hide Firsts, NonEmpty, OneShot, FirstAnswer;
    forall id: int, parse: string -> Option<Json> | parse("") == None
      ensures OneShot(stream, id, parse) == FirstAnswer(u, id, parse)
      ensures FirstAnswer(events, id, parse) == FirstAnswer(v, id, parse)
    {
      OneShotReadsMessages(stream, id, parse);
      FirstsAnswer(Messages(stream), id, parse);
      NonEmptyAnswer(events, id, parse);
      FirstsAnswer(NonEmpty(events), id, parse);
    }
    if u != v {
      ToldApart(u, v);
      var id: int, parse: string -> Option<Json> :| parse("") == None
        && FirstAnswer(u, id, parse) != FirstAnswer(v, id, parse);
      assert OneShot(stream, id, parse) != FirstAnswer(events, id, parse);
    }
  }

  // ------------------------------------------------------- what the reader finds in encoded events

  /** The lines the reader takes to be messages: it skips empty ones and those with a line separator in them. */
  function Readable(lines: seq<string>): seq<string> {
    if |lines| == 0 then []
    else (if lines[0] != "" && OneLine(lines[0]) then [lines[0]] else []) + Readable(lines[1..])
  }

  function ReadableOf(events: seq<seq<string>>): seq<string> {
    if |events| == 0 then [] else Readable(events[0]) + ReadableOf(events[1..])
  }

  lemma PayloadOfData(line: string)
    ensures Payload("data: " + line) == if OneLine(line) then Some(line) else None
  {
    var s := "data: " + line;
    assert s[5..] == " " + line && (" " + line)[1..] == line;
  }

  lemma {:induction false} DataLinesAreMessages(event: seq<string>)
    ensures LineMessages(EventStreams.DataLines(event)) == Readable(event)
  {
    hide Payload, OneLine;
    if |event| == 0 {
    } else {
      var lines := EventStreams.DataLines(event);
      DataLinesAreMessages(event[1..]);
      assert lines[0] == "data: " + event[0] && lines[1..] == EventStreams.DataLines(event[1..]);
      PayloadOfData(event[0]);
    }
  }

  lemma {:induction false} WrittenConcat(a: seq<string>, b: seq<string>, eol: EventStreams.Eol)
    ensures EventStreams.Written(a + b, eol) == EventStreams.Written(a, eol) + EventStreams.Written(b, eol)
  {
    hide EventStreams.EolText;
    if |a| == 0 {
      assert a + b == b;
    } else {
      WrittenConcat(a[1..], b, eol);
      assert (a + b)[1..] == a[1..] + b;
      Regroup(a[0] + EventStreams.EolText(eol), EventStreams.Written(a[1..], eol), EventStreams.Written(b, eol));
    }
  }

  lemma Regroup(a: string, b: string, c: string)
    ensures a + (b + c) == a + b + c
  {
  }

  lemma {:induction false} WrittenIsJoined(lines: seq<string>)
    requires |lines| > 0
    ensures EventStreams.Written(lines, EventStreams.LF) == Join(lines, "\n") + "\n"
  {
    if |lines| == 1 {
      assert EventStreams.Written(lines[1..], EventStreams.LF) == "";
      assert lines[0] + "\n" + "" == lines[0] + "\n";
    } else {
      WrittenIsJoined(lines[1..]);
      assert lines[0] + "\n" + (Join(lines[1..], "\n") + "\n") == lines[0] + "\n" + Join(lines[1..], "\n") + "\n";
    }
  }

  /** Every line feed is followed by something else. */
  ghost predicate Tidy(text: string) {
    forall j :: 0 <= j < |text| && text[j] == '\n' ==> j + 1 < |text| && text[j + 1] != '\n'
  }

  lemma {:induction false} JoinedIsTidy(lines: seq<string>)
    requires |lines| > 0 && forall i :: 0 <= i < |lines| ==> lines[i] != "" && '\n' !in lines[i]
    ensures var text := Join(lines, "\n"); Tidy(text) && text != "" && text[0] != '\n'
  {
    if |lines| == 1 {
    } else {
      JoinedIsTidy(lines[1..]);
      var a, b := lines[0], Join(lines[1..], "\n");
      var text := a + "\n" + b;
      assert forall j :: 0 <= j < |a| ==> text[j] in a;
      forall j | 0 <= j < |text| && text[j] == '\n'
        ensures j + 1 < |text| && text[j + 1] != '\n'
      {
        assert j >= |a|;
        if j == |a| {
          assert text[j + 1] == b[0];
        } else {
          assert text[j] == b[j - |a| - 1];
        }
      }
    }
  }

  lemma TidyCloses(text: string)
    requires Tidy(text)
    ensures Closes(text, "\n\n")
  {
    var whole, sep := text + "\n\n", "\n\n";
    IndexOfIsFirst(whole, sep);
    forall j: nat | j < |text|
      ensures !MatchAt(whole, sep, j)
    {
      MatchIsPair(whole, sep, j);
      assert whole[j] == text[j];
    }
    MatchIsPair(whole, sep, |text|);
  }

  lemma EncodeStep(events: seq<seq<string>>)
    requires EventStreams.Encodable(events) && |events| > 0
    ensures EventStreams.Encode(events, EventStreams.LF)
         == Join(EventStreams.DataLines(events[0]), "\n") + "\n\n" + EventStreams.Encode(events[1..], EventStreams.LF)
  {
    var lines, rest := EventStreams.DataLines(events[0]), EventStreams.EventLines(events[1..]);
    assert EventStreams.EventLines(events) == lines + ([""] + rest);
    WrittenConcat(lines, [""] + rest, EventStreams.LF);
    WrittenIsJoined(lines);
    assert ([""] + rest)[1..] == rest;
    var frame, more := Join(lines, "\n"), EventStreams.Written(rest, EventStreams.LF);
    assert EventStreams.Written([""] + rest, EventStreams.LF) == "" + "\n" + more;
    assert frame + "\n" + ("" + "\n" + more) == frame + "\n\n" + more;
  }

  lemma FrameOfEvent(event: seq<string>)
    requires |event| > 0 && forall i :: 0 <= i < |event| ==> EventStreams.Plain(event[i])
    ensures var frame := Join(EventStreams.DataLines(event), "\n");
      Closes(frame, "\n\n") && Split(frame, "\n") == EventStreams.DataLines(event)
  {
    var lines := EventStreams.DataLines(event);
    forall i | 0 <= i < |lines|
      ensures lines[i] != "" && '\n' !in lines[i] && !Contains(lines[i], "\n")
    {
      assert lines[i] == "data: " + event[i];
      ClosesWithout(lines[i], "\n");
    }
    JoinedIsTidy(lines);
    TidyCloses(Join(lines, "\n"));
    SplitJoinIff(lines, "\n");
  }

  lemma {:induction false} EncodedMessages(events: seq<seq<string>>)
    requires EventStreams.Encodable(events)
    ensures Messages(EventStreams.Encode(events, EventStreams.LF)) == ReadableOf(events)
  {
    hide Split, LineMessages, Readable;
    if |events| == 0 {
      NothingEncoded();
    } else {
      EncodedMessages(events[1..]);
      EncodeStep(events);
      FrameOfEvent(events[0]);
      var frame := Join(EventStreams.DataLines(events[0]), "\n");
      var rest := EventStreams.Encode(events[1..], EventStreams.LF);
      SplitFirst(frame, rest, "\n\n");
      hide EventStreams.Encode, Join;
      var whole := frame + "\n\n" + rest;
      assert Complete(whole, "\n\n") == [frame] + Complete(rest, "\n\n");
      assert ([frame] + Complete(rest, "\n\n"))[1..] == Complete(rest, "\n\n");
      DataLinesAreMessages(events[0]);
    }
  }

  lemma NothingEncoded()
    ensures Messages("") == []
    ensures EventStreams.Encode([], EventStreams.LF) == ""
  {
  }

  /** What the reader finds in events written with LF line ends: each data line on its own. */
  lemma EncodedLinesAreRead(events: seq<seq<string>>, id: int, parse: string -> Option<Json>)
    requires EventStreams.Encodable(events)
    ensures OneShot(EventStreams.Encode(events, EventStreams.LF), id, parse)
         == FirstAnswer(ReadableOf(events), id, parse)
    ensures Verdict(ReadableOf(events), id, parse, OneShot(EventStreams.Encode(events, EventStreams.LF), id, parse))
  {
    hide Messages, OneShot, FirstAnswer, Verdict, EventStreams.Encode;
    FirstAnswerIsVerdict(ReadableOf(events), id, parse);
    EncodedMessages(events);
    OneShotReadsMessages(EventStreams.Encode(events, EventStreams.LF), id, parse);
  }

  // ------------------------------------------------------- other line ends

  ghost predicate NoBlankLine(stream: string) {
    forall j: nat :: !PairAt(stream, "\n\n", j)
  }

  lemma NoBlankLineNoMessages(stream: string)
    requires NoBlankLine(stream)
    ensures Messages(stream) == []
  {
    hide PairAt;
    ContainsPairIff(stream, "\n\n");
    assert Split(stream, "\n\n") == [stream];
  }

  lemma {:induction false} NoBlankLineWritten(lines: seq<string>, eol: EventStreams.Eol)
    requires EventStreams.AllPlain(lines) && eol != EventStreams.LF
    ensures var text := EventStreams.Written(lines, eol); NoBlankLine(text) && (|text| > 0 ==> text[0] != '\n')
  {
    if |lines| == 0 {
    } else {
      NoBlankLineWritten(lines[1..], eol);
      var line, end, rest := lines[0], EventStreams.EolText(eol), EventStreams.Written(lines[1..], eol);
      var text := line + end + rest;
      assert EventStreams.Plain(line);
      forall j: nat
        ensures !PairAt(text, "\n\n", j)
      {
        if j + 1 < |text| {
          if j < |line| {
            assert !EventStreams.IsEol(line[j]);
          } else if j == |line| {
            assert text[j] == '\r';
          } else if j >= |line| + |end| {
            assert !PairAt(rest, "\n\n", j - |line| - |end|);
          }
        }
      }
    }
  }

  /** Every line ends in CRLF. */
  ghost predicate CrlfOnly(stream: string) {
    forall i :: 0 <= i < |stream| && stream[i] == '\n' ==> i > 0 && stream[i - 1] == '\r'
  }

  /** The standard allows CRLF line ends; the reader never finds anything in a stream that uses only them,
      whatever it carries. */
  lemma CrlfStreamIsSilent(stream: string, id: int, parse: string -> Option<Json>)
    requires CrlfOnly(stream)
    ensures OneShot(stream, id, parse) == Miss
  {
    NoBlankLineNoMessages(stream);
    OneShotReadsMessages(stream, id, parse);
  }

  /** And on one line the trailing CR alone hides the message. */
  lemma CrlfDataLineIsMissed(message: string, id: int, parse: string -> Option<Json>)
    ensures LineHit("data: " + message + "\r", id, parse) == Miss
  {
    var text := message + "\r";
    assert "data: " + message + "\r" == "data: " + text;
    PayloadOfData(text);
    assert text[|message|] in text && IsLineTerminator(text[|message|]);
  }

  // ------------------------------------------------------- which servers are read alike

  /** One data line per event, without the line separators that JSON allows inside strings. */
  ghost predicate SingleLines(events: seq<seq<string>>) {
    forall e :: 0 <= e < |events| ==> |events[e]| == 1 && OneLine(events[e][0])
  }

  ghost predicate NoData(events: seq<seq<string>>) {
    forall e :: 0 <= e < |events| ==> events[e] == [""]
  }

  lemma {:induction false} SingleLinesAgree(events: seq<seq<string>>)
    requires SingleLines(events)
    ensures ReadableOf(events) == NonEmpty(EventStreams.Data(events))
  {
    hide OneLine;
    if |events| == 0 {
    } else {
      assert SingleLines(events[1..]);
      SingleLinesAgree(events[1..]);
      var data := EventStreams.Data(events);
      assert data[0] == Join(events[0], "\n") == events[0][0] && data[1..] == EventStreams.Data(events[1..]);
      assert Readable(events[0]) == if events[0][0] != "" then [events[0][0]] else [] by {
        assert events[0][1..] == [];
        assert Readable(events[0][1..]) == [];
        assert OneLine(events[0][0]);
      }
    }
  }

  lemma {:induction false} ReadableIsOneLine(lines: seq<string>, x: string)
    ensures x in Readable(lines) ==> OneLine(x)
  {
    hide OneLine;
    if |lines| == 0 {
    } else {
      ReadableIsOneLine(lines[1..], x);
    }
  }

  lemma {:induction false} ReadableOfIsOneLine(events: seq<seq<string>>, x: string)
    ensures x in ReadableOf(events) ==> OneLine(x)
  {
    hide OneLine, Readable;
    if |events| == 0 {
    } else {
      ReadableOfIsOneLine(events[1..], x);
      ReadableIsOneLine(events[0], x);
    }
  }

  /** An event the reader cannot have in one piece. */
  lemma OtherEventsDiffer(events: seq<seq<string>>, e: nat)
    requires EventStreams.Encodable(events) && e < |events| && !(|events[e]| == 1 && OneLine(events[e][0]))
    ensures var data := EventStreams.Data(events)[e];
      data in NonEmpty(EventStreams.Data(events)) && data !in ReadableOf(events)
  {
    var data := EventStreams.Data(events)[e];
    assert data == Join(events[e], "\n");
    if |events[e]| > 1 {
      var a, b := events[e][0], Join(events[e][1..], "\n");
      assert data == a + "\n" + b;
      assert data[|a|] == '\n' && data[|a|] in data;
    } else {
      assert data == events[e][0];
    }
    assert !OneLine(data);
    NonEmptyIff(EventStreams.Data(events), data);
    ReadableOfIsOneLine(events, data);
  }

  lemma DataIsEmptyIff(events: seq<seq<string>>)
    requires EventStreams.Encodable(events)
    ensures NonEmpty(EventStreams.Data(events)) == [] <==> NoData(events)
  {
    var data := EventStreams.Data(events);
    forall e | 0 <= e < |events|
      ensures data[e] == "" <==> events[e] == [""]
    {
      if |events[e]| > 1 {
        assert |Join(events[e], "\n")| > 0;
      } else {
        assert data[e] == events[e][0];
        assert events[e] == [events[e][0]];
      }
    }
    if NoData(events) {
      if NonEmpty(data) != [] {
        NonEmptyIff(data, NonEmpty(data)[0]);
      }
    } else {
      var e :| 0 <= e < |events| && events[e] != [""];
      NonEmptyIff(data, data[e]);
    }
  }

  /** A server's events, written one after the other with either kind of line end, are read as the standard
      reads them exactly if it writes LF and puts each event on a single data line without line separators
      (or never sends any data at all). */
  lemma EncodingReadsAlikeIff(events: seq<seq<string>>, eol: EventStreams.Eol)
    requires EventStreams.Encodable(events)
    ensures ReadsAlike(EventStreams.Encode(events, eol))
      <==> if eol == EventStreams.LF then SingleLines(events) else NoData(events)
  {
    var stream, data := EventStreams.Encode(events, eol), EventStreams.Data(events);
    EventStreams.EncodingIsRead(events, eol);
    ReadsAlikeIff(stream);
    FirstsKeep(NonEmpty(data));
    hide ReadsAlike, EventStreams.Encode, EventStreams.Data, Messages, NonEmpty;
    if eol == EventStreams.LF {
      EncodedMessages(events);
      FirstsKeep(ReadableOf(events));
      hide Firsts, ReadableOf;
      if SingleLines(events) {
        SingleLinesAgree(events);
      } else {
        var e :| 0 <= e < |events| && !(|events[e]| == 1 && OneLine(events[e][0]));
        OtherEventsDiffer(events, e);
      }
    } else {
      SilentEncoding(events, eol);
      DataIsEmptyIff(events);
      NoFirsts(NonEmpty(data));
      NoFirsts([]);
    }
  }

  lemma NoFirsts(xs: seq<string>)
    ensures Firsts(xs) == [] <==> xs == []
  {
    FirstsKeep(xs);
    if xs != [] {
      assert xs[0] in Firsts(xs);
    }
  }

  lemma SilentEncoding(events: seq<seq<string>>, eol: EventStreams.Eol)
    requires EventStreams.Encodable(events) && eol != EventStreams.LF
    ensures Messages(EventStreams.Encode(events, eol)) == []
  {
    EventStreams.EventLinesArePlain(events);
    hide EventStreams.EventLines, Messages, NoBlankLine;
    NoBlankLineWritten(EventStreams.EventLines(events), eol);
    NoBlankLineNoMessages(EventStreams.Encode(events, eol));
  }

  /** For one id and one way of parsing: events written with CR or CRLF are read alike exactly when there is
      nothing to find. */
  lemma OtherLineEndsReadAlikeIff(events: seq<seq<string>>, eol: EventStreams.Eol, id: int,
                                  parse: string -> Option<Json>)
    requires EventStreams.Encodable(events) && eol != EventStreams.LF
    ensures var stream := EventStreams.Encode(events, eol);
      && EventStreams.Events(stream) == EventStreams.Data(events)
      && (OneShot(stream, id, parse) == FirstAnswer(EventStreams.Events(stream), id, parse)
          <==> FirstAnswer(EventStreams.Data(events), id, parse) == Miss)
  {
    hide OneShot, EventStreams.Encode, EventStreams.Events, EventStreams.Data, Messages;
    EventStreams.EncodingIsRead(events, eol);
    SilentEncoding(events, eol);
    OneShotReadsMessages(EventStreams.Encode(events, eol), id, parse);
  }

  /** A message that a server spreads over two data lines: the standard reads it, the reader does not. */
  lemma SplitMessageIsMissed(a: string, b: string, id: int, parse: string -> Option<Json>)
    requires EventStreams.Plain(a) && EventStreams.Plain(b) && parse(a) == None && parse(b) == None
    ensures var stream := EventStreams.Encode([[a, b]], EventStreams.LF);
      && EventStreams.Events(stream) == [a + "\n" + b]
      && OneShot(stream, id, parse) == Miss
  {
    hide OneShot, FirstAnswer, EventStreams.Encode, EventStreams.Events, ReadableOf;
    var events := [[a, b]];
    EventStreams.EncodingIsRead(events, EventStreams.LF);
    JoinPair(a, b, "\n");
    assert EventStreams.Data(events)[0] == a + "\n" + b;
    EncodedLinesAreRead(events, id, parse);
    MissIff(ReadableOf(events), id, parse);
    ReadableOfPair(a, b);
  }

  lemma ReadableOfPair(a: string, b: string)
    ensures forall x :: x in ReadableOf([[a, b]]) ==> x == a || x == b
  {
    hide OneLine;
    assert [[a, b]][1..] == [] && [a, b][1..] == [b] && [b][1..] == [];
    assert Readable([]) == [] && ReadableOf([]) == [];
    assert forall x :: x in Readable([b]) ==> x == b;
  }
}
