/** Server-sent events: the printer of app/api/routes.py and the reader of
    tetra_cli/client.py. Unlike section 9.2.6 of the HTML Living Standard, the reader
    dispatches an event on every data line instead of collecting data lines up to a
    blank line. */
module Sse {
  import opened Text

  datatype Frame = Frame(event: string, data: string)

  // ------------------------------------------------------------ printer

  function EventLine(f: Frame): string { "event:" + (" " + f.event) }

  function DataLine(f: Frame): string { "data:" + (" " + f.data) }

  /** One event as the server writes it. */
  function Print(f: Frame): string {
    EventLine(f) + "\n" + (DataLine(f) + "\n" + "\n")
  }

  function PrintAll(frames: seq<Frame>): string {
    if frames == [] then "" else Print(frames[0]) + PrintAll(frames[1..])
  }

  // ------------------------------------------------------------ reader

  const DefaultEvent := "message"

  /** What one line of the response means to the reader. */
  datatype Token = EventName(name: string) | Data(payload: string) | Ignored

  function ReadLine(line: string): Token {
    if StartsWith(line, "event:") then EventName(Strip(line[6..]))
    else if StartsWith(line, "data:") then Data(Strip(line[5..]))
    else Ignored
  }

  function ReadLines(lines: seq<string>): (tokens: seq<Token>)
    ensures |tokens| == |lines|
  {
    seq(|lines|, i requires 0 <= i < |lines| => ReadLine(lines[i]))
  }

  /** The frames that follow when `event` is the name read last. */
  function Dispatch(tokens: seq<Token>, event: string): seq<Frame> {
    if tokens == [] then []
    else match tokens[0]
      case EventName(name) => Dispatch(tokens[1..], name)
      case Data(payload) => [Frame(event, payload)] + Dispatch(tokens[1..], DefaultEvent)
      case Ignored => Dispatch(tokens[1..], event)
  }

  function Receive(text: string): seq<Frame> {
    Dispatch(ReadLines(Lines(text)), DefaultEvent)
  }

  lemma DispatchStep(tokens: seq<Token>, i: nat, event: string)
    requires i < |tokens|
    ensures Dispatch(tokens[i..], event) ==
            var token, rest := tokens[i], tokens[i + 1..];
            if token.EventName? then Dispatch(rest, token.name)
            else if token.Data? then [Frame(event, token.payload)] + Dispatch(rest, DefaultEvent)
            else Dispatch(rest, event)
  {
    assert tokens[i..][1..] == tokens[i + 1..];
  }

  /** The client's loop over the response lines. */
  method StreamFrames(lines: seq<string>) returns (frames: seq<Frame>)
    ensures frames == Dispatch(ReadLines(lines), DefaultEvent)
  {
    ghost var tokens := ReadLines(lines);
    frames := [];
    var event := DefaultEvent;
    for i := 0 to |lines|
      invariant frames + Dispatch(tokens[i..], event) == Dispatch(tokens, DefaultEvent)
    {
      var token := ReadLine(lines[i]);
      assert tokens[i] == token;
      DispatchStep(tokens, i, event);
      ghost var before := frames;
      match token {
        case EventName(name) =>
          event := name;
        case Data(payload) =>
          ghost var rest := Dispatch(tokens[i + 1..], DefaultEvent);
          assert frames + ([Frame(event, payload)] + rest) == (frames + [Frame(event, payload)]) + rest;
          frames := frames + [Frame(event, payload)];
          event := DefaultEvent;
        case Ignored =>
      }
    }
  }

  // ------------------------------------------------------------ round trip

  /** Text that survives the wire: one line, and nothing for the reader to strip. */
  ghost predicate Clean(s: string) {
    SingleLine(s) && Trimmed(s)
  }

  ghost predicate Sendable(f: Frame) {
    Clean(f.event) && Clean(f.data)
  }

  lemma ThreeLines(a: string, b: string, c: string, rest: string)
    requires SingleLine(a) && SingleLine(b) && SingleLine(c)
    ensures Lines(a + "\n" + (b + "\n" + (c + "\n" + rest))) == [a, b, c] + Lines(rest)
  {
    LinesStep(a, b + "\n" + (c + "\n" + rest));
    LinesStep(b, c + "\n" + rest);
    LinesStep(c, rest);
    ThreeAhead(a, b, c, Lines(rest));
  }

  lemma ThreeAhead<T>(a: T, b: T, c: T, rest: seq<T>)
    ensures [a] + ([b] + ([c] + rest)) == [a, b, c] + rest
  {
  }

  lemma PrintedLines(f: Frame, rest: string)
    requires SingleLine(f.event) && SingleLine(f.data)
    ensures Lines(Print(f) + rest) == [EventLine(f), DataLine(f), ""] + Lines(rest)
  {
    var e, d := EventLine(f), DataLine(f);
    assert SingleLine(e) && SingleLine(d);
    ThreeLines(e, d, "", rest);
    assert Print(f) + rest == e + "\n" + (d + "\n" + ("" + "\n" + rest));
  }

  lemma PrefixCut(prefix: string, s: string)
    ensures StartsWith(prefix + s, prefix) && (prefix + s)[|prefix|..] == s
  {
  }

  lemma ReadPrintedLines(f: Frame)
    requires Sendable(f)
    ensures ReadLine(EventLine(f)) == EventName(f.event)
    ensures ReadLine(DataLine(f)) == Data(f.data)
    ensures ReadLine("") == Ignored
  {
    StripLeadingSpace(f.event);
    StripLeadingSpace(f.data);
    StripFixedPoints(f.event);
    StripFixedPoints(f.data);
    PrefixCut("event:", " " + f.event);
    PrefixCut("data:", " " + f.data);
    assert DataLine(f)[..6][0] == 'd';
  }

  lemma ReadAppend(a: seq<string>, b: seq<string>)
    ensures ReadLines(a + b) == ReadLines(a) + ReadLines(b)
  {
  }

  /** Clean frames, printed one after the other, are read back as they were. */
  lemma {:induction false} SendableFramesArrive(frames: seq<Frame>)
    requires forall i :: 0 <= i < |frames| ==> Sendable(frames[i])
    ensures Receive(PrintAll(frames)) == frames
  {
    if frames != [] {
      SendableFramesArrive(frames[1..]);
      FirstFrameArrives(frames[0], PrintAll(frames[1..]));
    }
  }

  lemma ReadThree(a: string, b: string, c: string)
    ensures ReadLines([a, b, c]) == [ReadLine(a), ReadLine(b), ReadLine(c)]
  {
  }

  lemma FirstFrameArrives(f: Frame, rest: string)
    requires Sendable(f)
    ensures Receive(Print(f) + rest) == [f] + Receive(rest)
  {
    PrintedLines(f, rest);
    ReadPrintedLines(f);
    var head := [EventLine(f), DataLine(f), ""];
    ReadAppend(head, Lines(rest));
    ReadThree(EventLine(f), DataLine(f), "");
    DispatchPrinted(f, ReadLines(Lines(rest)));
  }

  lemma DispatchPrinted(f: Frame, tokens: seq<Token>)
    ensures Dispatch([EventName(f.event), Data(f.data), Ignored] + tokens, DefaultEvent)
         == [f] + Dispatch(tokens, DefaultEvent)
  {
    var all := [EventName(f.event), Data(f.data), Ignored] + tokens;
    DispatchStep(all, 0, DefaultEvent);
    DispatchStep(all, 1, f.event);
    DispatchStep(all, 2, DefaultEvent);
    assert all[0..] == all && all[3..] == tokens;
  }

  lemma StrippedLineIsClean(line: string, k: nat)
    requires SingleLine(line) && k <= |line|
    ensures Clean(Strip(line[k..]))
  {
    var s := Strip(line[k..]);
    StripFixedPoints(line[k..]);
    forall i | 0 <= i < |s|
      ensures !IsLineBreak(s[i])
    {
      assert s[i] in line[k..];
    }
  }

  ghost predicate CleanToken(t: Token) {
    match t
    case EventName(name) => Clean(name)
    case Data(payload) => Clean(payload)
    case Ignored => true
  }

  lemma ReadLineIsClean(line: string)
    requires SingleLine(line)
    ensures CleanToken(ReadLine(line))
  {
    if StartsWith(line, "event:") {
      StrippedLineIsClean(line, 6);
    } else if StartsWith(line, "data:") {
      StrippedLineIsClean(line, 5);
    }
  }

  lemma {:induction false} DispatchedIsSendable(tokens: seq<Token>, event: string)
    requires forall i :: 0 <= i < |tokens| ==> CleanToken(tokens[i])
    requires Clean(event)
    ensures forall i :: 0 <= i < |Dispatch(tokens, event)| ==> Sendable(Dispatch(tokens, event)[i])
  {
    if tokens != [] {
      assert CleanToken(tokens[0]);
      match tokens[0]
      case EventName(name) => DispatchedIsSendable(tokens[1..], name);
      case Data(payload) => DispatchedIsSendable(tokens[1..], DefaultEvent);
      case Ignored => DispatchedIsSendable(tokens[1..], event);
    }
  }

  /** Whatever the text, the reader produces only clean names and payloads. */
  lemma ReceivedIsSendable(text: string)
    ensures forall i :: 0 <= i < |Receive(text)| ==> Sendable(Receive(text)[i])
  {
    var lines := Lines(text);
    LinesAreSingle(text);
    forall i | 0 <= i < |lines|
      ensures CleanToken(ReadLines(lines)[i])
    {
      ReadLineIsClean(lines[i]);
    }
    DispatchedIsSendable(ReadLines(lines), DefaultEvent);
  }

  /** Printer and reader undo each other on exactly the frames whose name and payload are
      single lines without edge whitespace. */
  lemma RoundTrip(frames: seq<Frame>)
    ensures Receive(PrintAll(frames)) == frames
       <==> forall i :: 0 <= i < |frames| ==> Sendable(frames[i])
  {
    if forall i :: 0 <= i < |frames| ==> Sendable(frames[i]) {
      SendableFramesArrive(frames);
    }
    ReceivedIsSendable(PrintAll(frames));
  }

  /** The name under which the next payload will go: that of the latest event line since the last
      data line, and "message" if there is none. */
  ghost predicate NameNow(lines: seq<string>, name: string) {
    if lines == [] then name == "message"
    else
      var last := lines[|lines| - 1];
      if StartsWith(last, "event:") then name == Strip(last[6..])
      else if StartsWith(last, "data:") then name == "message"
      else NameNow(lines[..|lines| - 1], name)
  }

  ghost function NameAfter(tokens: seq<Token>, event: string): string {
    if tokens == [] then event
    else
      var last := tokens[|tokens| - 1];
      if last.EventName? then last.name
      else if last.Data? then DefaultEvent
      else NameAfter(tokens[..|tokens| - 1], event)
  }

  lemma NamesAgree(lines: seq<string>)
    ensures NameNow(lines, NameAfter(ReadLines(lines), DefaultEvent))
  {
    hide Strip;
    if lines != [] {
      assert ReadLines(lines)[..|lines| - 1] == ReadLines(lines[..|lines| - 1]);
      NamesAgree(lines[..|lines| - 1]);
    }
  }

  lemma {:induction false} DispatchSnoc(tokens: seq<Token>, t: Token, event: string)
    ensures Dispatch(tokens + [t], event) ==
            Dispatch(tokens, event) + if t.Data? then [Frame(NameAfter(tokens, event), t.payload)] else []
  {
    if tokens == [] {
      assert tokens + [t] == [t] && [t][1..] == [];
    } else {
      var rest := tokens[1..];
      assert (tokens + [t])[0] == tokens[0] && (tokens + [t])[1..] == rest + [t];
      var next := if tokens[0].EventName? then tokens[0].name
                  else if tokens[0].Data? then DefaultEvent else event;
      DispatchSnoc(rest, t, next);
      NameAfterFirst(tokens, event, next);
    }
  }

  lemma {:induction false} NameAfterFirst(tokens: seq<Token>, event: string, next: string)
    requires tokens != []
    requires next == if tokens[0].EventName? then tokens[0].name
                     else if tokens[0].Data? then DefaultEvent else event
    ensures NameAfter(tokens, event) == NameAfter(tokens[1..], next)
  {
    if |tokens| == 1 {
      assert tokens[..0] == [] && tokens[1..] == [];
    } else {
      assert tokens[1..][|tokens| - 2] == tokens[|tokens| - 1];
      assert tokens[1..][..|tokens| - 2] == tokens[..|tokens| - 1][1..];
      NameAfterFirst(tokens[..|tokens| - 1], event, next);
    }
  }

  /** Line by line: a data line adds one frame with its stripped payload, under the name that the
      lines before it leave; every other line adds none. */
  lemma EachLineExactly(lines: seq<string>, line: string)
    ensures var before := Dispatch(ReadLines(lines), DefaultEvent);
            var after := Dispatch(ReadLines(lines + [line]), DefaultEvent);
            if StartsWith(line, "data:") then
              exists name :: NameNow(lines, name) && after == before + [Frame(name, Strip(line[5..]))]
            else after == before
  {
    hide Strip, NameNow;
    var tokens := ReadLines(lines);
    assert ReadLines(lines + [line]) == tokens + [ReadLine(line)];
    DispatchSnoc(tokens, ReadLine(line), DefaultEvent);
    NamesAgree(lines);
    assert !(StartsWith(line, "data:") && StartsWith(line, "event:")) by {
      assert "data:"[0] == 'd' && "event:"[0] == 'e';
    }
  }
}
