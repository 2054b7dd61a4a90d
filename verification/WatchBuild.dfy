/** Build-log streaming from end to end: Coolify's stored log is parsed, diffed by the polling
    loop, printed as server-sent events, split into lines by the client and parsed back. */
module WatchBuild {
  import opened Text
  import opened Sse
  import opened BuildLog
  import opened LogStream

  // ------------------------------------------------------------ terminal states

  const TerminalStates: seq<string> := [
    "finished", "success", "succeeded", "failed", "error",
    "cancelled", "canceled", "cancelled_by_user", "closed", "skipped"
  ]

  predicate OneOf(s: string, names: seq<string>) {
    names != [] && (s == names[0] || OneOf(s, names[1..]))
  }

  predicate IsTerminal(status: string) {
    OneOf(Lower(status), TerminalStates)
  }

  /** A status ends a build exactly if, in any case, it is one of these ten. */
  lemma TerminalExactly(status: string)
    ensures IsTerminal(status) <==>
            Lower(status) in {"finished", "success", "succeeded", "failed", "error",
                              "cancelled", "canceled", "cancelled_by_user", "closed", "skipped"}
  {
    var s := Lower(status);
    hide Lower;
    OneOfTen(s);
  }

  lemma {:induction false} OneOfExactly(s: string, names: seq<string>)
    ensures OneOf(s, names) <==> s in names
  {
    if names != [] {
      OneOfExactly(s, names[1..]);
    }
  }

  lemma OneOfTen(s: string)
    ensures OneOf(s, TerminalStates) <==> s in TerminalStates
  {
    OneOfExactly(s, TerminalStates);
  }

  // ------------------------------------------------------------ payloads

  /** The values that occur in event payloads: strings, and the `timeout` flag. */
  datatype Scalar = Word(s: string) | Yes

  type Payload = seq<(string, Scalar)>

  /** `json.dumps` and `json.loads`; loading is None where Python raises. */
  datatype Codec = Codec(dumps: Payload -> string, loads: string -> Option<Payload>)

  /** JSON loses nothing of the payloads sent here, which repeat no key, and, with non-ASCII
      characters escaped, prints them on one line. */
  ghost predicate Faithful(c: Codec) {
    forall e :: var p := PayloadOf(e); Clean(c.dumps(p)) && c.loads(c.dumps(p)) == Some(p)
  }

  function EventName(e: Event<Line>): string {
    match e
    case StatusEvent(_) => "status"
    case LogEvent(_) => "log"
    case DoneEvent(_, _) => "done"
    case ErrorEvent => "error"
  }

  function LinePayload(line: Line): Payload {
    [("output", Word(line.output)), ("type", Word(line.kind)), ("timestamp", Word(line.timestamp))]
  }

  function PayloadOf(e: Event<Line>): Payload {
    match e
    case StatusEvent(status) => [("status", Word(status))]
    case LogEvent(line) => LinePayload(line)
    case DoneEvent(status, timedOut) =>
      [("status", Word(status))] + (if timedOut then [("timeout", Yes)] else [])
    case ErrorEvent => [("message", Word("Deployment not found."))]
  }

  function FrameOf(e: Event<Line>, c: Codec): Frame {
    Frame(EventName(e), c.dumps(PayloadOf(e)))
  }

  function FramesOf(events: seq<Event<Line>>, c: Codec): (frames: seq<Frame>)
    ensures |frames| == |events|
  {
    seq(|events|, i requires 0 <= i < |events| => FrameOf(events[i], c))
  }

  /** What the client yields: decoded data, or the raw text when it is not JSON. */
  datatype Received = Received(event: string, payload: Payload) | Undecoded(event: string, raw: string)

  function Decode(f: Frame, c: Codec): Received {
    match c.loads(f.data)
    case Some(p) => Received(f.event, p)
    case None => Undecoded(f.event, f.data)
  }

  function DecodeAll(frames: seq<Frame>, c: Codec): (received: seq<Received>)
    ensures |received| == |frames|
  {
    seq(|frames|, i requires 0 <= i < |frames| => Decode(frames[i], c))
  }

  /** What a client that loses nothing has in hand. */
  ghost function Intact(e: Event<Line>): Received {
    Received(EventName(e), PayloadOf(e))
  }

  ghost function IntactAll(events: seq<Event<Line>>): (received: seq<Received>)
    ensures |received| == |events|
  {
    seq(|events|, i requires 0 <= i < |events| => Intact(events[i]))
  }

  // ------------------------------------------------------------ the client's view

  /** Payloads of the log events the client got, in order. */
  ghost function LogPayloads(received: seq<Received>): seq<Payload> {
    if received == [] then []
    else
      (if received[0].Received? && received[0].event == "log" then [received[0].payload] else [])
      + LogPayloads(received[1..])
  }

  ghost function LinePayloads(lines: seq<Line>): (payloads: seq<Payload>)
    ensures |payloads| == |lines|
  {
    seq(|lines|, i requires 0 <= i < |lines| => LinePayload(lines[i]))
  }

  ghost predicate IsClosing(r: Received) {
    r.event == "done" || r.event == "error"
  }

  lemma EventNames(e: Event<Line>)
    ensures Clean(EventName(e))
    ensures EventName(e) == "log" <==> e.LogEvent?
    ensures IsClosing(Intact(e)) <==> Closes(e)
  {
    assert "status"[0] == 's' && "log"[0] == 'l' && "done"[0] == 'd' && "error"[0] == 'e';
  }

  lemma LogPayload(e: Event<Line>)
    requires e.LogEvent?
    ensures PayloadOf(e) == LinePayload(e.line)
  {
  }

  lemma {:induction false} LogsSurvive(events: seq<Event<Line>>)
    ensures LogPayloads(IntactAll(events)) == LinePayloads(LinesIn(events))
  {
    hide EventName, PayloadOf, LinePayload;
    if events != [] {
      EventNames(events[0]);
      if events[0].LogEvent? {
        LogPayload(events[0]);
      }
      assert IntactAll(events)[1..] == IntactAll(events[1..]);
      LogsSurvive(events[1..]);
    }
  }

  // ------------------------------------------------------------ end to end

  /** Print every event, then read the text back: the client has exactly what was sent. */
  lemma EventsArriveIntact(events: seq<Event<Line>>, c: Codec)
    requires Faithful(c)
    ensures DecodeAll(Receive(PrintAll(FramesOf(events, c))), c) == IntactAll(events)
  {
    var frames := FramesOf(events, c);
    forall i | 0 <= i < |frames|
      ensures Sendable(frames[i])
    {
      EventNames(events[i]);
      assert frames[i].data == c.dumps(PayloadOf(events[i]));
    }
    SendableFramesArrive(frames);
    forall i | 0 <= i < |frames|
      ensures Decode(frames[i], c) == Intact(events[i])
    {
      assert frames[i].data == c.dumps(PayloadOf(events[i]));
    }
  }

  /** The value under a key. */
  function Field(p: Payload, key: string): Option<Scalar> {
    if p == [] then None else if p[0].0 == key then Some(p[0].1) else Field(p[1..], key)
  }

  lemma FieldsOfLine(line: Line)
    ensures var p := LinePayload(line);
            && Field(p, "output") == Some(Word(line.output))
            && Field(p, "type") == Some(Word(line.kind))
            && Field(p, "timestamp") == Some(Word(line.timestamp))
  {
    var p := LinePayload(line);
    assert "output"[0] == 'o' && "type"[0] == 't' && "timestamp"[0] == 't';
    assert "type"[1] == 'y' && "timestamp"[1] == 'i';
    assert p[1..] == [p[1], p[2]] && p[1..][1..] == [p[2]];
    assert Field([p[2]], "timestamp") == Some(Word(line.timestamp));
  }

  lemma FieldsOfDone(status: string, timedOut: bool)
    ensures var p := PayloadOf(DoneEvent(status, timedOut));
            && Field(p, "status") == Some(Word(status))
            && Field(p, "timeout") == if timedOut then Some(Yes) else None
  {
    var p := PayloadOf(DoneEvent(status, timedOut));
    assert "status"[0] == 's' && "timeout"[0] == 't';
    assert Field([], "timeout") == None;
    assert p[1..] == if timedOut then [("timeout", Yes)] else [];
  }

  /** What one fetch of the deployment returns, with its log as stored. */
  datatype Fetch = Hangup | Missing | Fetched(status: string, log: Option<string>)

  function LogLines(log: Option<string>, r: Reader): seq<Line> {
    if log.None? then [] else ParsedLines(log.value, r)
  }

  function Seen(f: Fetch, r: Reader): Poll<Line> {
    match f
    case Hangup => Disconnected
    case Missing => NotFound
    case Fetched(status, log) => Found(status, LogLines(log, r))
  }

  function SeenWorld(fetches: nat -> Fetch, r: Reader): nat -> Poll<Line> {
    (k: nat) => Seen(fetches(k), r)
  }

  /** Server and client together. */
  method Watch(fetches: nat -> Fetch, r: Reader, c: Codec, interval: int, limit: int)
    returns (received: seq<Received>, polls: nat)
    requires interval > 0 && Faithful(c)
    ensures StopsAfter(SeenWorld(fetches, r), polls, IsTerminal, interval, limit)
    ensures received == IntactAll(Sent(SeenWorld(fetches, r), polls, IsTerminal))
  {
    var world := SeenWorld(fetches, r);
    var events;
    events, polls := StreamDeploymentLogs(world, IsTerminal, interval, limit);
    EventsArriveIntact(events, c);
    var text := PrintAll(FramesOf(events, c));
    var frames := StreamFrames(Lines(text));
    received := DecodeAll(frames, c);
  }

  /** The client sees the final log exactly once and in order, then one closing event, and
      that one last; a client that hangs up sees no closing event. */
  lemma ClientSeesFinalLog(world: nat -> Poll<Line>, polls: nat)
    requires polls > 0 && AllFound(world, polls - 1)
    requires OnlyAppends(world, FoundPolls(world, polls))
    ensures var received := IntactAll(Sent(world, polls, IsTerminal));
            && LogPayloads(received) == LinePayloads(FinalLines(world, FoundPolls(world, polls)))
            && (world(polls - 1).Disconnected? ==> forall i :: 0 <= i < |received| ==> !IsClosing(received[i]))
            && (!world(polls - 1).Disconnected? ==>
                  && received != []
                  && IsClosing(received[|received| - 1])
                  && forall i :: 0 <= i < |received| - 1 ==> !IsClosing(received[i]))
  {
    var events := Sent(world, polls, IsTerminal);
    StreamDelivers(world, polls, IsTerminal);
    LogsSurvive(events);
    forall i | 0 <= i < |events|
      ensures IsClosing(IntactAll(events)[i]) <==> Closes(events[i])
    {
      EventNames(events[i]);
    }
  }

  /** Read field by field: log event number i carries the text, type and timestamp of line i. */
  lemma ClientReadsFinalLog(world: nat -> Poll<Line>, polls: nat, i: nat)
    requires polls > 0 && AllFound(world, polls - 1)
    requires OnlyAppends(world, FoundPolls(world, polls))
    requires i < |FinalLines(world, FoundPolls(world, polls))|
    ensures var payloads := LogPayloads(IntactAll(Sent(world, polls, IsTerminal)));
            var lines := FinalLines(world, FoundPolls(world, polls));
            && |payloads| == |lines|
            && Field(payloads[i], "output") == Some(Word(lines[i].output))
            && Field(payloads[i], "type") == Some(Word(lines[i].kind))
            && Field(payloads[i], "timestamp") == Some(Word(lines[i].timestamp))
  {
    hide LogPayloads, IntactAll, Sent, FinalLines, Field, IsTerminal;
    ClientSeesFinalLog(world, polls);
    FieldsOfLine(FinalLines(world, FoundPolls(world, polls))[i]);
  }

  /** The last event the client has, unless it hung up: "done" with the status polled last, and a
      timeout flag exactly if that status does not end a build; or "error". */
  lemma ClientLearnsHowItEnded(world: nat -> Poll<Line>, polls: nat)
    requires polls > 0 && AllFound(world, polls - 1) && !world(polls - 1).Disconnected?
    ensures var received := IntactAll(Sent(world, polls, IsTerminal));
            && received != []
            && var last := received[|received| - 1];
               if world(polls - 1).NotFound? then last.event == "error"
               else
                 && last.Received? && last.event == "done"
                 && Field(last.payload, "status") == Some(Word(world(polls - 1).status))
                 && Field(last.payload, "timeout") == if IsTerminal(world(polls - 1).status) then None else Some(Yes)
  {
    hide Sent, IsTerminal, Field, PayloadOf;
    LastEventTells(world, polls, IsTerminal);
    var events := Sent(world, polls, IsTerminal);
    var last := events[|events| - 1];
    if last.DoneEvent? {
      FieldsOfDone(last.status, last.timedOut);
    }
    assert IntactAll(events)[|events| - 1] == Intact(last);
  }

  // ------------------------------------------------------------ plain-text logs

  function TextOf(f: Fetch): string
    requires f.Fetched?
  {
    if f.log.None? then "" else f.log.value
  }

  /** Every stored log is plain text that the next one extends, by whatever text. */
  ghost predicate GrowsAsText(fetches: nat -> Fetch, r: Reader, n: nat) {
    && (forall k :: 0 <= k < n ==> fetches(k).Fetched? && IsPlain(TextOf(fetches(k)), r))
    && (forall k :: 0 < k < n ==> TextOf(fetches(k - 1)) <= TextOf(fetches(k)))
  }

  function Added(fetches: nat -> Fetch, k: nat): string
    requires k > 0 && fetches(k - 1).Fetched? && fetches(k).Fetched?
    requires TextOf(fetches(k - 1)) <= TextOf(fetches(k))
  {
    TextOf(fetches(k))[|TextOf(fetches(k - 1))|..]
  }

  /** No fetch found a line with text in it half written, to be written on later. */
  ghost predicate GrowsByWholeLines(fetches: nat -> Fetch, r: Reader, n: nat)
    requires GrowsAsText(fetches, r, n)
  {
    forall k :: 0 < k < n ==> KeepsLines(TextOf(fetches(k - 1)), Added(fetches, k))
  }

  lemma OneStep(fetches: nat -> Fetch, r: Reader, n: nat, k: nat)
    requires GrowsAsText(fetches, r, n) && 0 < k < n
    ensures var world := SeenWorld(fetches, r);
            && world(k - 1).Found? && world(k).Found?
            && Continues(world(k - 1).lines, world(k).lines)
            && (world(k - 1).lines <= world(k).lines <==> KeepsLines(TextOf(fetches(k - 1)), Added(fetches, k)))
  {
    hide Continues, KeepsLines;
    var raw, more := TextOf(fetches(k - 1)), Added(fetches, k);
    assert TextOf(fetches(k)) == raw + more;
    PlainGrowthExactly(raw, more, r);
  }

  lemma {:induction false} ManySteps(fetches: nat -> Fetch, r: Reader, n: nat, j: nat, k: nat)
    requires GrowsAsText(fetches, r, n) && j <= k < n
    ensures var world := SeenWorld(fetches, r);
            world(j).Found? && world(k).Found? && Continues(world(j).lines, world(k).lines)
    decreases k
  {
    hide Continues, KeepsLines, GrowsAsText, SeenWorld;
    var world := SeenWorld(fetches, r);
    SeenAll(fetches, r, n);
    if j < k {
      ManySteps(fetches, r, n, j, k - 1);
      OneStep(fetches, r, n, k);
      ContinuesFurther(world(j).lines, world(k - 1).lines, world(k).lines);
    } else {
      ContinuesItself(world(j).lines);
    }
  }

  lemma ContinuesItself(lines: seq<Line>)
    ensures Continues(lines, lines)
  {
  }

  lemma ContinuesFurther(a: seq<Line>, b: seq<Line>, c: seq<Line>)
    requires Continues(a, b) && Continues(b, c)
    ensures Continues(a, c)
  {
  }

  /** The line lists only append exactly when no line was caught half written. */
  lemma WholeLinesOnlyAppend(fetches: nat -> Fetch, r: Reader, n: nat)
    requires GrowsAsText(fetches, r, n)
    ensures OnlyAppends(SeenWorld(fetches, r), n) <==> GrowsByWholeLines(fetches, r, n)
  {
    hide KeepsLines, Continues, SeenWorld;
    SeenAll(fetches, r, n);
    forall k | 0 < k < n
      ensures SeenWorld(fetches, r)(k - 1).lines <= SeenWorld(fetches, r)(k).lines
              <==> KeepsLines(TextOf(fetches(k - 1)), Added(fetches, k))
    {
      OneStep(fetches, r, n, k);
    }
  }

  lemma ChangedLine(lines: seq<Line>, later: seq<Line>) returns (i: nat)
    requires Continues(lines, later) && !(lines <= later)
    ensures i < |lines| && i < |later| && |lines[i].output| < |later[i].output|
  {
    i :| 0 <= i < |lines| && lines[i] != later[i];
    assert lines[i].output != later[i].output;
  }

  /** A line that was sent half written is never put right. */
  lemma HalfLineStays(fetches: nat -> Fetch, r: Reader, n: nat, k: nat)
    requires GrowsAsText(fetches, r, n) && 0 < k < n
    requires !(SeenWorld(fetches, r)(k - 1).lines <= SeenWorld(fetches, r)(k).lines)
    ensures AllFound(SeenWorld(fetches, r), n)
    ensures LinesIn(Transcript(SeenWorld(fetches, r), n)) != FinalLines(SeenWorld(fetches, r), n)
  {
    hide LinesIn, Transcript, Longest, SeenWorld, GrowsAsText, FinalLines;
    var world := SeenWorld(fetches, r);
    SeenAll(fetches, r, n);
    OneStep(fetches, r, n, k);
    var i := ChangedLine(world(k - 1).lines, world(k).lines);
    EachIndexSentOnce(world, n);
    LongestIsMax(world, n);
    var sent := LinesIn(Transcript(world, n));
    assert FirstSeen(world, n, i, sent[i]);
    var j :| FirstSeenAt(world, n, i, sent[i], j);
    ManySteps(fetches, r, n, j, k - 1);
    ManySteps(fetches, r, n, k, n - 1);
    assert |sent[i].output| < |world(n - 1).lines[i].output|;
    FinalOf(world, n);
  }

  lemma SeenAll(fetches: nat -> Fetch, r: Reader, n: nat)
    requires GrowsAsText(fetches, r, n)
    ensures AllFound(SeenWorld(fetches, r), n)
  {
  }

  lemma FinalOf(world: nat -> Poll<Line>, n: nat)
    requires n > 0 && AllFound(world, n)
    ensures FinalLines(world, n) == world(n - 1).lines
  {
  }

  /** The lines of the last stored log among the first n fetches. */
  ghost function LastLogged(fetches: nat -> Fetch, r: Reader, n: nat): seq<Line>
    requires forall k :: 0 <= k < n ==> fetches(k).Fetched?
  {
    if n == 0 then [] else LogLines(fetches(n - 1).log, r)
  }

  /** The same from stored logs: a plain-text log that only grows reaches the client as exactly
      the lines of its last version when, and only when, it grew by whole lines. */
  lemma PlainLogReachesClient(fetches: nat -> Fetch, r: Reader, polls: nat, interval: int, limit: int)
    requires StopsAfter(SeenWorld(fetches, r), polls, IsTerminal, interval, limit)
    requires GrowsAsText(fetches, r, FoundPolls(SeenWorld(fetches, r), polls))
    ensures var n := FoundPolls(SeenWorld(fetches, r), polls);
            LogPayloads(IntactAll(Sent(SeenWorld(fetches, r), polls, IsTerminal)))
              == LinePayloads(LastLogged(fetches, r, n))
            <==> GrowsByWholeLines(fetches, r, n)
  {
    hide LinesIn, Transcript, IntactAll, LogPayloads, LinePayloads, Sent;
    hide RunsFor, GoesOn, GrowsAsText, GrowsByWholeLines, LogLines;
    var world := SeenWorld(fetches, r);
    var n := FoundPolls(world, polls);
    SeenAll(fetches, r, n);
    ReceivedLogs(world, polls);
    ArrivesExactly(fetches, r, n);
    if LinePayloads(LinesIn(Transcript(world, n))) == LinePayloads(FinalLines(world, n)) {
      PayloadsTell(LinesIn(Transcript(world, n)), FinalLines(world, n));
    }
    LastLoggedIsFinal(fetches, r, n);
  }

  lemma LastLoggedIsFinal(fetches: nat -> Fetch, r: Reader, n: nat)
    requires GrowsAsText(fetches, r, n) && AllFound(SeenWorld(fetches, r), n)
    ensures LastLogged(fetches, r, n) == FinalLines(SeenWorld(fetches, r), n)
  {
  }

  lemma ReceivedLogs(world: nat -> Poll<Line>, polls: nat)
    requires polls > 0 && AllFound(world, polls - 1) && AllFound(world, FoundPolls(world, polls))
    ensures LogPayloads(IntactAll(Sent(world, polls, IsTerminal)))
         == LinePayloads(LinesIn(Transcript(world, FoundPolls(world, polls))))
  {
    hide LinesIn, Transcript, IntactAll, LogPayloads, LinePayloads, Sent;
    var n := FoundPolls(world, polls);
    SentIsClosed(world, polls, IsTerminal);
    TranscriptStaysOpen(world, n);
    CloseWith(Transcript(world, n), Closing(world, polls, IsTerminal));
    LogsSurvive(Sent(world, polls, IsTerminal));
  }

  lemma ArrivesExactly(fetches: nat -> Fetch, r: Reader, n: nat)
    requires GrowsAsText(fetches, r, n) && AllFound(SeenWorld(fetches, r), n)
    ensures LinesIn(Transcript(SeenWorld(fetches, r), n)) == FinalLines(SeenWorld(fetches, r), n)
            <==> GrowsByWholeLines(fetches, r, n)
  {
    hide LinesIn, Transcript, GrowsAsText, GrowsByWholeLines, FinalLines;
    var world := SeenWorld(fetches, r);
    WholeLinesOnlyAppend(fetches, r, n);
    if OnlyAppends(world, n) {
      AppendingLogArrivesWhole(world, n);
    } else {
      var k :| 0 < k < n && !(world(k - 1).lines <= world(k).lines);
      HalfLineStays(fetches, r, n, k);
    }
  }

  lemma PayloadsTell(a: seq<Line>, b: seq<Line>)
    requires LinePayloads(a) == LinePayloads(b)
    ensures a == b
  {
    forall i | 0 <= i < |a|
      ensures a[i] == b[i]
    {
      assert LinePayloads(a)[i] == LinePayloads(b)[i];
      assert LinePayload(a[i])[0] == LinePayload(b[i])[0];
      assert LinePayload(a[i])[1] == LinePayload(b[i])[1];
      assert LinePayload(a[i])[2] == LinePayload(b[i])[2];
    }
  }

  // ------------------------------------------------------------ JSON logs

  /** Every fetch finds the deployment, and its log is JSON. */
  ghost predicate AllJson(fetches: nat -> Fetch, r: Reader, n: nat) {
    forall k :: 0 <= k < n ==> fetches(k).Fetched? && IsJson(TextOf(fetches(k)), r)
  }

  ghost function ItemsAt(fetches: nat -> Fetch, r: Reader, n: nat, k: nat): seq<Json>
    requires AllJson(fetches, r, n) && k < n
  {
    JsonItems(TextOf(fetches(k)), r)
  }

  /** Fetch k is the first one whose log has an item at index i. */
  ghost predicate FirstItem(fetches: nat -> Fetch, r: Reader, n: nat, k: nat, i: nat)
    requires AllJson(fetches, r, n)
  {
    && k < n
    && i < |ItemsAt(fetches, r, n, k)|
    && forall j :: 0 <= j < k ==> |ItemsAt(fetches, r, n, j)| <= i
  }

  /** Every item that was ever seen is in the last log, at its index, and still reads as it did
      when its index was first reached; what it read in between does not matter. */
  ghost predicate ItemsStay(fetches: nat -> Fetch, r: Reader, n: nat)
    requires n > 0 && AllJson(fetches, r, n)
  {
    var final := ItemsAt(fetches, r, n, n - 1);
    forall k: nat, i: nat :: FirstItem(fetches, r, n, k, i) ==>
      i < |final| && LineOf(ItemsAt(fetches, r, n, k)[i], r) == LineOf(final[i], r)
  }

  lemma LinesAtFetch(fetches: nat -> Fetch, r: Reader, n: nat, k: nat)
    requires AllJson(fetches, r, n) && k < n
    ensures SeenWorld(fetches, r)(k) == Found(fetches(k).status, LinesOfItems(ItemsAt(fetches, r, n, k), r))
  {
    ParsedJson(TextOf(fetches(k)), r);
  }

  /** A JSON log, whether it grows, shrinks or rewrites items in place, reaches the client as
      exactly the lines of its last version if, and only if, its items stay. */
  lemma JsonLogReachesClient(fetches: nat -> Fetch, r: Reader, polls: nat, interval: int, limit: int)
    requires StopsAfter(SeenWorld(fetches, r), polls, IsTerminal, interval, limit)
    requires AllJson(fetches, r, FoundPolls(SeenWorld(fetches, r), polls))
    requires FoundPolls(SeenWorld(fetches, r), polls) > 0
    ensures var n := FoundPolls(SeenWorld(fetches, r), polls);
            LogPayloads(IntactAll(Sent(SeenWorld(fetches, r), polls, IsTerminal)))
              == LinePayloads(LastLogged(fetches, r, n))
            <==> ItemsStay(fetches, r, n)
  {
    hide LinesIn, Transcript, IntactAll, LogPayloads, LinePayloads, Sent, RunsFor, GoesOn, ItemsStay, LineOf, SeenWorld;
    var world := SeenWorld(fetches, r);
    var n := FoundPolls(world, polls);
    assert AllFound(world, n) by {
      forall k | 0 <= k < n
        ensures world(k).Found?
      {
        LinesAtFetch(fetches, r, n, k);
      }
    }
    ReceivedLogs(world, polls);
    DeliveredExactly(world, n);
    NewItems(fetches, r, n);
    LastJsonLogged(fetches, r, n);
    if LinePayloads(LinesIn(Transcript(world, n))) == LinePayloads(world(n - 1).lines) {
      PayloadsTell(LinesIn(Transcript(world, n)), world(n - 1).lines);
    }
  }

  lemma LastJsonLogged(fetches: nat -> Fetch, r: Reader, n: nat)
    requires n > 0 && AllJson(fetches, r, n) && AllFound(SeenWorld(fetches, r), n)
    ensures LastLogged(fetches, r, n) == SeenWorld(fetches, r)(n - 1).lines
  {
    LinesAtFetch(fetches, r, n, n - 1);
    ParsedJson(TextOf(fetches(n - 1)), r);
  }

  lemma NewItems(fetches: nat -> Fetch, r: Reader, n: nat)
    requires n > 0 && AllJson(fetches, r, n) && AllFound(SeenWorld(fetches, r), n)
    ensures var world := SeenWorld(fetches, r);
            ItemsStay(fetches, r, n) <==>
            forall k: nat, i: nat :: NewAt(world, n, k, i) ==>
              i < |world(n - 1).lines| && world(k).lines[i] == world(n - 1).lines[i]
  {
    hide SeenWorld, LineOf, AllJson, ItemsAt;
    var world := SeenWorld(fetches, r);
    forall k | 0 <= k < n
      ensures world(k).lines == LinesOfItems(ItemsAt(fetches, r, n, k), r)
    {
      LinesAtFetch(fetches, r, n, k);
    }
    forall k: nat, i: nat
      ensures NewAt(world, n, k, i) <==> FirstItem(fetches, r, n, k, i)
    {
    }
    forall k: nat, i: nat | k < n && i < |ItemsAt(fetches, r, n, k)|
      ensures world(k).lines[i] == LineOf(ItemsAt(fetches, r, n, k)[i], r)
    {
    }
  }
}
