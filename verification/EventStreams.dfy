/** Event streams as the WHATWG HTML standard reads them (sections 9.2.5 and 9.2.6), as far as the data of
    events goes: lines end in CR, LF or CRLF, the data lines of an event are joined, and a blank line
    dispatches it. The text is what UTF-8 decoding, which drops a byte order mark, has left. */
module EventStreams {
  import opened Text

  predicate IsEol(c: char) {
    c == '\r' || c == '\n'
  }

  /** How far the first line reaches. */
  function LineLength(s: string): (n: nat)
    ensures n <= |s|
    ensures forall i :: 0 <= i < n ==> !IsEol(s[i])
    ensures n < |s| ==> IsEol(s[n])
  {
    if |s| == 0 || IsEol(s[0]) then 0 else 1 + LineLength(s[1..])
  }

  function AfterEol(s: string): string
    requires |s| > 0
  {
    if |s| > 1 && s[0] == '\r' && s[1] == '\n' then s[2..] else s[1..]
  }

  /** The lines that are ended; text behind the last line end is discarded. */
  function Lines(s: string): seq<string>
    decreases |s|
  {
    var n := LineLength(s);
    if n == |s| then [] else [s[..n]] + Lines(AfterEol(s[n..]))
  }

  function Name(line: string): string {
    var colon := IndexOf(line, ":");
    if 0 <= colon <= |line| then line[..colon] else line
  }

  /** What stands behind the first colon, without one leading space. */
  function Value(line: string): string {
    var colon := IndexOf(line, ":");
    if !(0 <= colon < |line|) then ""
    else
      var rest := line[colon + 1..];
      if |rest| > 0 && rest[0] == ' ' then rest[1..] else rest
  }

  /** What a line adds to the data buffer; comments have an empty name. */
  function Field(line: string): string {
    if Name(line) == "data" then Value(line) + "\n" else ""
  }

  /** The data of the events that are dispatched, from lines and what is buffered. An event that a blank line
      has not ended is discarded. */
  function Dispatch(lines: seq<string>, buffer: string): seq<string> {
    if |lines| == 0 then []
    else if lines[0] != "" then Dispatch(lines[1..], buffer + Field(lines[0]))
    else if buffer == "" then Dispatch(lines[1..], "")
    else [buffer[..|buffer| - 1]] + Dispatch(lines[1..], "")
  }

  function Events(stream: string): seq<string> {
    Dispatch(Lines(stream), "")
  }

  // ------------------------------------------------------- what a server writes

  datatype Eol = LF | CRLF | CR

  function EolText(eol: Eol): string {
    match eol
    case LF => "\n"
    case CRLF => "\r\n"
    case CR => "\r"
  }

  predicate Plain(line: string) {
    forall i :: 0 <= i < |line| ==> !IsEol(line[i])
  }

  function DataLines(event: seq<string>): seq<string> {
    seq(|event|, i requires 0 <= i < |event| => "data: " + event[i])
  }

  function Written(lines: seq<string>, eol: Eol): string {
    if |lines| == 0 then "" else lines[0] + EolText(eol) + Written(lines[1..], eol)
  }

  /** All lines of a list of events, each event ended by a blank one. */
  function EventLines(events: seq<seq<string>>): seq<string> {
    if |events| == 0 then [] else DataLines(events[0]) + [""] + EventLines(events[1..])
  }

  /** Each event is a list of data lines. */
  function Encode(events: seq<seq<string>>, eol: Eol): string {
    Written(EventLines(events), eol)
  }

  /** At least one data line each, none with a line end in it. */
  ghost predicate Encodable(events: seq<seq<string>>) {
    forall e :: 0 <= e < |events| ==> |events[e]| > 0 && forall i :: 0 <= i < |events[e]| ==> Plain(events[e][i])
  }

  /** The data of an event: its lines joined by line feeds. */
  function Data(events: seq<seq<string>>): seq<string> {
    seq(|events|, e requires 0 <= e < |events| => Join(events[e], "\n"))
  }

  ghost predicate AllPlain(lines: seq<string>) {
    forall i :: 0 <= i < |lines| ==> Plain(lines[i])
  }

  lemma {:induction false} LengthOfPlain(line: string, rest: string)
    requires Plain(line) && |rest| > 0 && IsEol(rest[0])
    ensures LineLength(line + rest) == |line|
  {
    if |line| == 0 {
      assert line + rest == rest;
    } else {
      assert (line + rest)[1..] == line[1..] + rest;
      LengthOfPlain(line[1..], rest);
    }
  }

  lemma LineIsRead(line: string, eol: Eol, rest: string)
    requires Plain(line) && (|rest| > 0 && eol == CR ==> rest[0] != '\n')
    ensures Lines(line + EolText(eol) + rest) == [line] + Lines(rest)
  {
    hide EolText, AfterEol, LineLength, Lines, IsEol;
    var tail := EolText(eol) + rest;
    EolIsSkipped(eol, rest);
    LengthOfPlain(line, tail);
    LinesStep(line + tail, |line|);
    assert line + EolText(eol) + rest == line + tail;
    assert (line + tail)[..|line|] == line && (line + tail)[|line|..] == tail;
  }

  lemma EolIsSkipped(eol: Eol, rest: string)
    requires |rest| > 0 && eol == CR ==> rest[0] != '\n'
    ensures var tail := EolText(eol) + rest; |tail| > 0 && IsEol(tail[0]) && AfterEol(tail) == rest
  {
  }

  lemma LinesStep(s: string, n: nat)
    requires LineLength(s) == n < |s|
    ensures Lines(s) == [s[..n]] + Lines(AfterEol(s[n..]))
  {
    hide LineLength, AfterEol;
  }

  /** Whatever the line ends, the lines written are the lines read. */
  lemma {:induction false} LinesAreRead(lines: seq<string>, eol: Eol)
    requires AllPlain(lines)
    ensures Lines(Written(lines, eol)) == lines
    ensures var text := Written(lines, eol); |text| > 0 && eol == CR ==> text[0] != '\n'
  {
    hide Lines;
    if |lines| == 0 {
      NoLines();
    } else {
      LinesAreRead(lines[1..], eol);
      LineIsRead(lines[0], eol, Written(lines[1..], eol));
      assert |lines[0]| > 0 ==> !IsEol(lines[0][0]);
    }
  }

  lemma NoLines()
    ensures Lines("") == []
  {
  }

  /** Which lines carry data: the bare name, and the name with a colon, behind which one space is dropped. */
  lemma FieldIs(line: string)
    ensures Field(line) ==
      if line == "data" then "\n"
      else if "data: " <= line then line[6..] + "\n"
      else if "data:" <= line then line[5..] + "\n"
      else ""
  {
    IndexOfIsFirst(line, ":");
    var colon := IndexOf(line, ":");
    forall j: nat
      ensures MatchAt(line, ":", j) <==> j < |line| && line[j] == ':'
    {
      if j < |line| {
        assert line[j..j + 1] == [line[j]];
      }
    }
    hide IndexOf, MatchAt;
    if "data:" <= line {
      assert line[..4] == "data:"[..4] == "data" && line[4] == ':';
      assert colon == 4;
      assert "data: " <= line <==> |line| > 5 && line[5] == ' ';
      assert "data: " <= line ==> line[5..][1..] == line[6..];
    }
  }

  lemma FieldOfData(line: string)
    ensures Field("data: " + line) == line + "\n"
  {
    var s := "data: " + line;
    assert s == "data" + ":" + (" " + line);
    ClosesWithout("data", ":");
    IndexOfAppend("data" + ":", " " + line, ":");
    IndexOfIsFirst("data" + ":", ":");
    assert IndexOf(s, ":") == 4;
    assert s[..4] == "data" && s[5..] == " " + line && (" " + line)[1..] == line;
  }

  /** What the data lines of an event leave in the buffer. */
  function Buffered(event: seq<string>): string {
    if |event| == 0 then "" else event[0] + "\n" + Buffered(event[1..])
  }

  lemma {:induction false} BufferIsData(event: seq<string>)
    requires |event| > 0
    ensures |Buffered(event)| > 0 && Buffered(event)[..|Buffered(event)| - 1] == Join(event, "\n")
  {
    if |event| == 1 {
      assert Buffered(event) == event[0] + "\n" + "";
      assert (event[0] + "\n" + "")[..|event[0]|] == event[0];
    } else {
      BufferIsData(event[1..]);
      var rest := Buffered(event[1..]);
      var whole := event[0] + "\n" + rest;
      assert whole[..|whole| - 1] == event[0] + "\n" + rest[..|rest| - 1];
    }
  }

  lemma DispatchField(lines: seq<string>, buffer: string)
    requires |lines| > 0 && lines[0] != ""
    ensures Dispatch(lines, buffer) == Dispatch(lines[1..], buffer + Field(lines[0]))
  {
    hide Field;
  }

  lemma {:induction false} DataLinesAreBuffered(event: seq<string>, rest: seq<string>, buffer: string)
    ensures Dispatch(DataLines(event) + rest, buffer) == Dispatch(rest, buffer + Buffered(event))
  {
    hide Dispatch, Field, DataLines;
    if |event| == 0 {
      NoDataLines(event);
      assert DataLines(event) + rest == rest && buffer + Buffered(event) == buffer;
    } else {
      DataLineIsBuffered(event, rest, buffer);
      DataLinesAreBuffered(event[1..], rest, buffer + (event[0] + "\n"));
      assert buffer + (event[0] + "\n") + Buffered(event[1..]) == buffer + (event[0] + "\n" + Buffered(event[1..]));
    }
  }

  lemma NoDataLines(event: seq<string>)
    requires |event| == 0
    ensures DataLines(event) == []
  {
  }

  lemma DataLineIsBuffered(event: seq<string>, rest: seq<string>, buffer: string)
    requires |event| > 0
    ensures Dispatch(DataLines(event) + rest, buffer)
         == Dispatch(DataLines(event[1..]) + rest, buffer + (event[0] + "\n"))
  {
    hide Dispatch, Field;
    var lines := DataLines(event) + rest;
    assert lines[0] == "data: " + event[0] && lines[1..] == DataLines(event[1..]) + rest;
    FieldOfData(event[0]);
    DispatchField(lines, buffer);
  }

  lemma {:induction false} EventsAreDispatched(events: seq<seq<string>>)
    requires Encodable(events)
    ensures Dispatch(EventLines(events), "") == Data(events)
  {
    if |events| == 0 {
    } else {
      hide Dispatch, DataLines, Join, Buffered;
      var rest, buffer := EventLines(events[1..]), Buffered(events[0]);
      EventsAreDispatched(events[1..]);
      assert EventLines(events) == DataLines(events[0]) + ([""] + rest);
      DataLinesAreBuffered(events[0], [""] + rest, "");
      assert "" + buffer == buffer;
      BufferIsData(events[0]);
      BlankLineDispatches(rest, buffer);
      assert Data(events) == [Join(events[0], "\n")] + Data(events[1..]);
    }
  }

  lemma BlankLineDispatches(rest: seq<string>, buffer: string)
    requires buffer != ""
    ensures Dispatch([""] + rest, buffer) == [buffer[..|buffer| - 1]] + Dispatch(rest, "")
  {
    hide Field;
    assert ([""] + rest)[1..] == rest;
  }

  lemma {:induction false} EventLinesArePlain(events: seq<seq<string>>)
    requires Encodable(events)
    ensures AllPlain(EventLines(events))
  {
    if |events| == 0 {
    } else {
      EventLinesArePlain(events[1..]);
      assert Plain("data: ");
      forall i | 0 <= i < |events[0]|
        ensures Plain(DataLines(events[0])[i])
      {
      }
    }
  }

  /** A standard reader gets back the data of every event, whichever line ends the server uses. */
  lemma EncodingIsRead(events: seq<seq<string>>, eol: Eol)
    requires Encodable(events)
    ensures Events(Encode(events, eol)) == Data(events)
  {
    hide Lines, Dispatch, EventLines, Written;
    EventLinesArePlain(events);
    LinesAreRead(EventLines(events), eol);
    EventsAreDispatched(events);
  }
}
