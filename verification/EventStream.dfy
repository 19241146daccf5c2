/** Framing of messages as a server-sent event stream, and the standard reading of such a stream. */
module EventStream {

  const LF: char := '\n'
  const CR: char := '\r'

  // ---------------------------------------------------------------------------
  // Reading, after section 9.2.6 of the HTML standard.

  datatype Event = Event(name: string, data: string)

  /** The bytes before the first line ending. */
  function LineLength(s: string): (n: nat)
    ensures n <= |s| && LF !in s[..n] && CR !in s[..n]
    ensures n < |s| ==> s[n] == LF || s[n] == CR
  {
    if s == "" || s[0] == LF || s[0] == CR then 0 else 1 + LineLength(s[1..])
  }

  /** The lines of a stream; a line ends with LF, CR or both, and what follows the last ending is no line yet. */
  function Lines(s: string): seq<string> {
    var n := LineLength(s);
    if n == |s| then []
    else [s[..n]] + Lines(s[if s[n] == CR && n + 1 < |s| && s[n + 1] == LF then n + 2 else n + 1..])
  }

  function ColonAt(line: string): (n: nat)
    ensures n <= |line| && ':' !in line[..n] && (n < |line| ==> line[n] == ':')
  {
    if line == "" || line[0] == ':' then 0 else 1 + ColonAt(line[1..])
  }

  /** The field name and value of a line; one space after the colon does not count. */
  function Field(line: string): (string, string) {
    var n := ColonAt(line);
    if n == |line| then (line, "")
    else if n + 1 < |line| && line[n + 1] == ' ' then (line[..n], line[n + 2..])
    else (line[..n], line[n + 1..])
  }

  /** Line by line, with the data and the event name collected so far. An empty line dispatches. */
  function Interpret(lines: seq<string>, data: string, name: string): seq<Event> {
    if lines == [] then []
    else
      var line, rest := lines[0], lines[1..];
      if line == "" then
        (if data == "" then [] else [Event(if name == "" then "message" else name, data[..|data| - 1])])
        + Interpret(rest, "", "")
      else if line[0] == ':' then Interpret(rest, data, name)
      else
        var (field, value) := Field(line);
        if field == "event" then Interpret(rest, data, value)
        else if field == "data" then Interpret(rest, data + value + [LF], name)
        else Interpret(rest, data, name)
  }

  function Decode(stream: string): seq<Event> {
    Interpret(Lines(stream), "", "")
  }

  // ---------------------------------------------------------------------------
  // Writing.

  /** What makes the handler write: a message from the broker, or a tick of the heartbeat. */
  datatype Item = Message(text: string) | Heartbeat

  const KEEPALIVE := ": keepalive\n\n"

  function IndexOfLF(s: string): (n: nat)
    ensures n <= |s| && LF !in s[..n] && (n < |s| ==> s[n] == LF)
  {
    if s == "" || s[0] == LF then 0 else 1 + IndexOfLF(s[1..])
  }

  function Split(s: string): (lines: seq<string>)
    ensures |lines| > 0
  {
    var n := IndexOfLF(s);
    if n == |s| then [s] else [s[..n]] + Split(s[n + 1..])
  }

  function DataLines(lines: seq<string>): string {
    if lines == [] then "" else "data: " + lines[0] + [LF] + DataLines(lines[1..])
  }

  function Frame(item: Item): string {
    match item
    case Heartbeat => KEEPALIVE
    case Message(text) => "event: message" + [LF] + DataLines(Split(text)) + [LF]
  }

  function Encode(items: seq<Item>): string {
    if items == [] then "" else Frame(items[0]) + Encode(items[1..])
  }

  function Messages(items: seq<Item>): seq<string> {
    if items == [] then []
    else (if items[0].Message? then [items[0].text] else []) + Messages(items[1..])
  }

  lemma Associative(a: string, b: string, c: string)
    ensures a + (b + c) == a + b + c
  {
  }

  lemma EncodeFirst(items: seq<Item>, i: nat, written: string)
    requires i < |items|
    ensures written + Encode(items[i..]) == written + Frame(items[i]) + Encode(items[i + 1..])
  {
    assert items[i..][1..] == items[i + 1..];
    Associative(written, Frame(items[i]), Encode(items[i + 1..]));
  }

  lemma DataLinesFirst(lines: seq<string>, i: nat, buf: string)
    requires i < |lines|
    ensures buf + DataLines(lines[i..]) == buf + "data: " + lines[i] + [LF] + DataLines(lines[i + 1..])
  {
    assert lines[i..][1..] == lines[i + 1..];
    var rest := DataLines(lines[i + 1..]);
    Associative(buf, "data: " + lines[i] + [LF], rest);
    Associative(buf, "data: " + lines[i], [LF]);
    Associative(buf, "data: ", lines[i]);
  }

  method BuildFrame(msg: string) returns (buf: string)
    ensures buf == Frame(Message(msg))
  {
    var lines := Split(msg);
    buf := "event: message\n";
    ghost var head := "event: message" + [LF];
    assert buf == head;
    for i := 0 to |lines|
      invariant head + DataLines(lines) == buf + DataLines(lines[i..])
    {
      DataLinesFirst(lines, i, buf);
      buf := buf + "data: ";
      buf := buf + lines[i];
      buf := buf + [LF];
    }
    assert buf + "" == buf;
    buf := buf + [LF];
  }

  /** The streaming loop, up to the end of the connection. */
  method Stream(items: seq<Item>) returns (written: string)
    ensures written == Encode(items)
  {
    written := "";
    for i := 0 to |items|
      invariant Encode(items) == written + Encode(items[i..])
    {
      EncodeFirst(items, i, written);
      match items[i] {
        case Heartbeat => written := written + KEEPALIVE;
        case Message(text) =>
          var frame := BuildFrame(text);
          written := written + frame;
      }
    }
    assert written + "" == written;
  }

  // ---------------------------------------------------------------------------
  // Reading what was written.

  predicate IsOneLine(s: string) {
    LF !in s && CR !in s
  }

  lemma {:induction false} LineLengthOf(a: string, c: char, rest: string)
    requires IsOneLine(a) && (c == LF || c == CR)
    ensures LineLength(a + [c] + rest) == |a|
  {
    if a != "" {
      assert (a + [c] + rest)[1..] == a[1..] + [c] + rest;
      LineLengthOf(a[1..], c, rest);
    }
  }

  lemma FirstLine(a: string, rest: string)
    requires IsOneLine(a)
    ensures Lines(a + [LF] + rest) == [a] + Lines(rest)
  {
    LineLengthOf(a, LF, rest);
    var s := a + [LF] + rest;
    assert s[..|a|] == a && s[|a| + 1..] == rest && s[|a|] == LF;
  }

  /** The text, with a line feed after each of its lines. */
  lemma {:induction false} SplitJoins(text: string)
    ensures Joined(Split(text)) == text + [LF]
  {
    var n := IndexOfLF(text);
    if n == |text| {
      JoinedFirst(text, []);
    } else {
      var more := text[n + 1..];
      SplitJoins(more);
      JoinedFirst(text[..n], Split(more));
      CutAt(text, n);
      Associative(text[..n] + [LF], more, [LF]);
    }
  }

  lemma JoinedFirst(line: string, more: seq<string>)
    ensures Joined([line] + more) == line + [LF] + Joined(more)
  {
    assert ([line] + more)[1..] == more;
  }

  lemma CutAt(text: string, n: nat)
    requires n < |text| && text[n] == LF
    ensures text == text[..n] + [LF] + text[n + 1..]
  {
  }

  function Joined(lines: seq<string>): string {
    if lines == [] then "" else lines[0] + [LF] + Joined(lines[1..])
  }

  lemma {:induction false} SplitIsClean(text: string)
    requires CR !in text
    ensures forall i :: 0 <= i < |Split(text)| ==> IsOneLine(Split(text)[i])
  {
    var n := IndexOfLF(text);
    if n < |text| {
      SplitIsClean(text[n + 1..]);
      OneMoreLine(text[..n], Split(text[n + 1..]));
    }
  }

  lemma OneMoreLine(first: string, rest: seq<string>)
    requires IsOneLine(first) && forall i :: 0 <= i < |rest| ==> IsOneLine(rest[i])
    ensures forall i :: 0 <= i < |[first] + rest| ==> IsOneLine(([first] + rest)[i])
  {
  }

  lemma DataField(line: string)
    ensures Field("data: " + line) == ("data", line)
  {
    var s := "data: " + line;
    assert s[0] == 'd' && s[1..][0] == 'a' && s[1..][1..][0] == 't' && s[1..][1..][1..][0] == 'a' && s[1..][1..][1..][1..][0] == ':';
    assert ColonAt(s[1..][1..][1..][1..]) == 0;
    assert ColonAt(s[1..][1..]) == 1 + ColonAt(s[1..][1..][1..]);
    assert ColonAt(s) == 4;
    assert s[..4] == "data" && s[6..] == line;
  }

  lemma EventField()
    ensures Field("event: message") == ("event", "message")
  {
    var s := "event: message";
    assert s[1..][1..][1..][1..][1..][0] == ':';
    assert ColonAt(s[1..][1..][1..][1..][1..]) == 0;
    assert ColonAt(s[1..][1..][1..]) == 1 + ColonAt(s[1..][1..][1..][1..]);
    assert ColonAt(s[1..]) == 1 + ColonAt(s[1..][1..]);
    assert ColonAt(s) == 5;
    assert s[..5] == "event" && s[7..] == "message";
  }

  lemma DataLine(line: string, more: seq<string>, data: string, name: string)
    ensures Interpret(["data: " + line] + more, data, name) == Interpret(more, data + line + [LF], name)
  {
    DataField(line);
    assert (["data: " + line] + more)[1..] == more;
  }

  lemma EventLine(more: seq<string>, data: string, name: string)
    ensures Interpret(["event: message"] + more, data, name) == Interpret(more, data, "message")
  {
    EventField();
    assert (["event: message"] + more)[1..] == more;
  }

  lemma EmptyLine(more: seq<string>, data: string, name: string)
    ensures Interpret([""] + more, data, name)
         == (if data == "" then [] else [Event(if name == "" then "message" else name, data[..|data| - 1])])
            + Interpret(more, "", "")
  {
    assert ([""] + more)[1..] == more;
  }

  lemma CommentLine(line: string, more: seq<string>, data: string, name: string)
    requires line != "" && line[0] == ':'
    ensures Interpret([line] + more, data, name) == Interpret(more, data, name)
  {
    assert ([line] + more)[1..] == more;
  }

  /** An empty line comes next in the stream. */
  lemma EmptyLineFirst(rest: string)
    ensures Lines([LF] + rest) == [""] + Lines(rest)
  {
    FirstLine("", rest);
    assert "" + [LF] + rest == [LF] + rest;
  }

  /** Reading the data lines of a message collects their text. */
  lemma {:induction false} ReadsDataLines(lines: seq<string>, rest: string, data: string, name: string)
    requires forall i :: 0 <= i < |lines| ==> IsOneLine(lines[i])
    ensures Interpret(Lines(DataLines(lines) + rest), data, name) == Interpret(Lines(rest), data + Joined(lines), name)
  {
    if lines == [] {
      assert DataLines(lines) + rest == rest && data + "" == data;
    } else {
      var more := DataLines(lines[1..]) + rest;
      assert IsOneLine("data: " + lines[0]);
      FirstDataLine(lines, rest);
      DataLine(lines[0], Lines(more), data, name);
      ReadsDataLines(lines[1..], rest, data + lines[0] + [LF], name);
      Associative(data, lines[0] + [LF], Joined(lines[1..]));
      Associative(data, lines[0], [LF]);
    }
  }

  lemma FirstDataLine(lines: seq<string>, rest: string)
    requires lines != [] && IsOneLine("data: " + lines[0])
    ensures Lines(DataLines(lines) + rest) == ["data: " + lines[0]] + Lines(DataLines(lines[1..]) + rest)
  {
    var line, more := "data: " + lines[0], DataLines(lines[1..]) + rest;
    Associative(line + [LF], DataLines(lines[1..]), rest);
    FirstLine(line, more);
  }

  lemma ReadsFrame(item: Item, rest: string)
    requires item.Message? ==> CR !in item.text
    ensures Decode(Frame(item) + rest)
         == (if item.Message? then [Event("message", item.text)] else []) + Decode(rest)
  {
    match item
    case Heartbeat => ReadsHeartbeat(rest);
    case Message(text) => ReadsMessage(text, rest);
  }

  lemma ReadsMessage(text: string, rest: string)
    requires CR !in text
    ensures Decode(Frame(Message(text)) + rest) == [Event("message", text)] + Decode(rest)
  {
    var lines, tail := Split(text), [LF] + rest;
    assert Frame(Message(text)) + rest == "event: message" + [LF] + (DataLines(lines) + tail);
    FirstLine("event: message", DataLines(lines) + tail);
    EventLine(Lines(DataLines(lines) + tail), "", "");
    SplitIsClean(text);
    ReadsDataLines(lines, tail, "", "message");
    SplitJoins(text);
    EmptyLineFirst(rest);
    EmptyLine(Lines(rest), text + [LF], "message");
    assert "" + (text + [LF]) == text + [LF] && (text + [LF])[..|text + [LF]| - 1] == text;
  }

  lemma ReadsHeartbeat(rest: string)
    ensures Decode(KEEPALIVE + rest) == [] + Decode(rest)
  {
    var comment := ": keepalive";
    assert KEEPALIVE == comment + [LF] + [LF];
    assert KEEPALIVE + rest == comment + [LF] + ([LF] + rest);
    FirstLine(comment, [LF] + rest);
    EmptyLineFirst(rest);
    CommentLine(comment, [""] + Lines(rest), "", "");
    EmptyLine(Lines(rest), "", "");
  }

  function AsEvents(texts: seq<string>): seq<Event> {
    if texts == [] then [] else [Event("message", texts[0])] + AsEvents(texts[1..])
  }

  predicate NoCR(texts: seq<string>) {
    forall i :: 0 <= i < |texts| ==> CR !in texts[i]
  }

  lemma {:induction false} ReadsWhatWasWritten(items: seq<Item>)
    requires NoCR(Messages(items))
    ensures Decode(Encode(items)) == AsEvents(Messages(items))
  {
    if items != [] {
      var rest := Messages(items[1..]);
      if items[0].Message? {
        assert Messages(items)[0] == items[0].text;
        assert Messages(items)[1..] == rest;
        assert forall i :: 0 <= i < |rest| ==> rest[i] == Messages(items)[i + 1];
      } else {
        assert Messages(items) == rest;
      }
      ReadsFrame(items[0], Encode(items[1..]));
      ReadsWhatWasWritten(items[1..]);
    }
  }

  // ---------------------------------------------------------------------------
  // A carriage return never gets through.

  predicate CleanLines(lines: seq<string>) {
    forall i :: 0 <= i < |lines| ==> CR !in lines[i]
  }

  lemma {:induction false} LinesAreClean(s: string)
    ensures CleanLines(Lines(s))
  {
    var n := LineLength(s);
    if n < |s| {
      var k := if s[n] == CR && n + 1 < |s| && s[n + 1] == LF then n + 2 else n + 1;
      LinesAreClean(s[k..]);
      CleanFirst(s[..n], Lines(s[k..]));
    }
  }

  lemma CleanFirst(line: string, more: seq<string>)
    requires CR !in line && CleanLines(more)
    ensures CleanLines([line] + more)
  {
  }

  lemma {:induction false} InterpretIsClean(lines: seq<string>, data: string, name: string)
    requires CleanLines(lines) && CR !in data
    ensures forall i :: 0 <= i < |Interpret(lines, data, name)| ==> CR !in Interpret(lines, data, name)[i].data
  {
    if lines != [] {
      var line, rest := lines[0], lines[1..];
      var (field, value) := Field(line);
      assert CR !in value;
      if line == "" {
        InterpretIsClean(rest, "", "");
      } else if line[0] == ':' {
        InterpretIsClean(rest, data, name);
      } else if field == "event" {
        InterpretIsClean(rest, data, value);
      } else if field == "data" {
        InterpretIsClean(rest, data + value + [LF], name);
      } else {
        InterpretIsClean(rest, data, name);
      }
    }
  }

  lemma {:induction false} EventAt(texts: seq<string>, i: nat)
    requires i < |texts|
    ensures |AsEvents(texts)| == |texts| && AsEvents(texts)[i].data == texts[i]
  {
    if |texts| > 1 {
      EventAt(texts[1..], if i > 0 then i - 1 else 0);
    }
  }

  /**
   A standard reader gets exactly the messages, in their order and whatever heartbeats come between them,
   if and only if no message holds a carriage return.
   */
  lemma StreamRoundTrip(items: seq<Item>)
    ensures Decode(Encode(items)) == AsEvents(Messages(items)) <==> NoCR(Messages(items))
  {
    var texts := Messages(items);
    if NoCR(texts) {
      ReadsWhatWasWritten(items);
    } else if Decode(Encode(items)) == AsEvents(texts) {
      var i :| 0 <= i < |texts| && CR in texts[i];
      EventAt(texts, i);
      LinesAreClean(Encode(items));
      InterpretIsClean(Lines(Encode(items)), "", "");
      assert false;
    }
  }

  /** What goes over the wire for a tick and for a message of two lines. */
  lemma FramesAsWritten()
    ensures Frame(Heartbeat) == ": keepalive\n\n"
    ensures Frame(Message("a\nb")) == "event: message\ndata: a\ndata: b\n\n"
  {
    TwoLines();
    TwoDataLines();
  }

  lemma TwoDataLines()
    ensures DataLines(["a", "b"]) == "data: a\ndata: b\n"
  {
    DataLinesOf("a", ["b"]);
    DataLinesOf("b", []);
    assert ["b"] + [] == ["b"] && ["a"] + ["b"] == ["a", "b"];
    assert DataLines(["b"]) == "data: b\n";
  }

  lemma TwoLines()
    ensures Split("a\nb") == ["a", "b"]
  {
    assert "a\nb"[1..] == "\nb" && "a\nb"[..1] == "a" && "a\nb"[2..] == "b" && "b"[1..] == "";
    assert IndexOfLF("a\nb") == 1 && IndexOfLF("b") == 1;
    assert Split("b") == ["b"];
  }

  lemma DataLinesOf(line: string, rest: seq<string>)
    ensures DataLines([line] + rest) == "data: " + line + [LF] + DataLines(rest)
  {
    assert ([line] + rest)[1..] == rest;
  }
}
