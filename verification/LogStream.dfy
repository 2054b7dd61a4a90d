/** `_stream_deployment_logs` (app/api/routes.py): poll a deployment, send what is new, stop on
    a terminal status, a vanished deployment, a disconnect or the time limit. The world the
    loop polls is a function from the poll number to what that poll finds; `terminal` tells
    which statuses end a build. */
module LogStream {
  import opened Text

  /** What one round of the loop finds. `Disconnected` is the check made before the fetch. */
  datatype Poll<T> =
    | Disconnected
    | NotFound
    | Found(status: string, lines: seq<T>)

  datatype Event<T> =
    | StatusEvent(status: string)
    | LogEvent(line: T)
    | DoneEvent(status: string, timedOut: bool)
    | ErrorEvent

  /** Disconnected, gone, or in a terminal state. */
  predicate Ends<T>(found: Poll<T>, terminal: string -> bool) {
    !found.Found? || terminal(found.status)
  }

  // ------------------------------------------------------------ history

  ghost predicate AllFound<T>(world: nat -> Poll<T>, n: nat) {
    forall k :: 0 <= k < n ==> world(k).Found?
  }

  /** Length of the longest line list among the first n polls. */
  ghost function Longest<T>(world: nat -> Poll<T>, n: nat): nat
    requires AllFound(world, n)
  {
    if n == 0 then 0
    else
      var before, now := Longest(world, n - 1), |world(n - 1).lines|;
      if now > before then now else before
  }

  ghost function LogEvents<T>(lines: seq<T>): (events: seq<Event<T>>)
    ensures |events| == |lines|
  {
    seq(|lines|, i requires 0 <= i < |lines| => LogEvent(lines[i]))
  }

  ghost predicate Repeats<T>(world: nat -> Poll<T>, n: nat)
    requires AllFound(world, n + 1)
  {
    n > 0 && world(n - 1).status == world(n).status
  }

  /** The status of poll n, when it differs from that of the poll before. */
  ghost function NewStatus<T>(world: nat -> Poll<T>, n: nat): seq<Event<T>>
    requires AllFound(world, n + 1)
  {
    if Repeats(world, n) then [] else [StatusEvent(world(n).status)]
  }

  /** The lines of poll n past the longest list seen before. */
  ghost function NewLines<T>(world: nat -> Poll<T>, n: nat): seq<T>
    requires AllFound(world, n + 1)
  {
    var before, lines := Longest(world, n), world(n).lines;
    if |lines| > before then lines[before..] else []
  }

  /** What poll n adds. */
  ghost function News<T>(world: nat -> Poll<T>, n: nat): seq<Event<T>>
    requires AllFound(world, n + 1)
  {
    NewStatus(world, n) + LogEvents(NewLines(world, n))
  }

  ghost function Transcript<T>(world: nat -> Poll<T>, n: nat): seq<Event<T>>
    requires AllFound(world, n)
  {
    if n == 0 then [] else Transcript(world, n - 1) + News(world, n - 1)
  }

  /** The time slept after n polls. */
  ghost function Elapsed(n: nat, interval: int): int {
    if n == 0 then 0 else Elapsed(n - 1, interval) + interval
  }

  lemma {:induction false} ElapsedIsProduct(n: nat, interval: int)
    ensures Elapsed(n, interval) == n * interval
  {
    if n > 0 {
      ElapsedIsProduct(n - 1, interval);
    }
  }

  /** Poll number k neither ends the stream nor reaches the time limit. */
  ghost predicate GoesOn<T>(world: nat -> Poll<T>, k: nat, terminal: string -> bool, interval: int, limit: int) {
    !Ends(world(k), terminal) && Elapsed(k + 1, interval) < limit
  }

  /** The first n polls all go on. */
  ghost predicate RunsFor<T>(world: nat -> Poll<T>, n: nat, terminal: string -> bool, interval: int, limit: int) {
    n == 0 || (RunsFor(world, n - 1, terminal, interval, limit) && GoesOn(world, n - 1, terminal, interval, limit))
  }

  /** The stream stops at the first poll that does not go on. */
  ghost predicate StopsAfter<T>(world: nat -> Poll<T>, polls: nat, terminal: string -> bool,
                                interval: int, limit: int) {
    && polls > 0
    && AllFound(world, polls - 1)
    && RunsFor(world, polls - 1, terminal, interval, limit)
    && !GoesOn(world, polls - 1, terminal, interval, limit)
  }

  /** What the last round sends. */
  ghost function FinalRound<T>(world: nat -> Poll<T>, n: nat, terminal: string -> bool): seq<Event<T>>
    requires AllFound(world, n)
  {
    match world(n)
    case Disconnected => []
    case NotFound => [ErrorEvent]
    case Found(status, _) =>
      assert AllFound(world, n + 1);
      News(world, n) + [DoneEvent(status, !terminal(status))]
  }

  /** Everything sent by a stream that stops after this many polls. */
  ghost function Sent<T>(world: nat -> Poll<T>, polls: nat, terminal: string -> bool): seq<Event<T>>
    requires polls > 0 && AllFound(world, polls - 1)
  {
    Transcript(world, polls - 1) + FinalRound(world, polls - 1, terminal)
  }

  method YieldLines<T>(unsent: seq<T>) returns (events: seq<Event<T>>)
    ensures events == LogEvents(unsent)
  {
    events := [];
    for i := 0 to |unsent|
      invariant events == LogEvents(unsent)[..i]
    {
      events := events + [LogEvent(unsent[i])];
    }
  }

  /** What a round sends before it sleeps. */
  ghost function RoundEvents<T>(world: nat -> Poll<T>, n: nat, terminal: string -> bool): seq<Event<T>>
    requires AllFound(world, n)
  {
    match world(n)
    case Disconnected => []
    case NotFound => [ErrorEvent]
    case Found(status, _) =>
      assert AllFound(world, n + 1);
      News(world, n) + (if terminal(status) then [DoneEvent(status, false)] else [])
  }

  /** One round up to its sleep; `over` tells that the stream ends here. */
  method StreamRound<T>(ghost world: nat -> Poll<T>, ghost n: nat, found: Poll<T>,
                        lastStatus: Option<string>, sentLines: nat, terminal: string -> bool)
    returns (events: seq<Event<T>>, status: Option<string>, sent: nat, over: bool)
    requires AllFound(world, n) && found == world(n)
    requires sentLines == Longest(world, n)
    requires lastStatus == if n == 0 then None else Some(world(n - 1).status)
    ensures events == RoundEvents(world, n, terminal)
    ensures over <==> Ends(found, terminal)
    ensures !over ==> status == Some(found.status) && AllFound(world, n + 1) && sent == Longest(world, n + 1)
  {
    events, status, sent, over := [], lastStatus, sentLines, true;
    if found.Disconnected? {
      return;
    }
    if found.NotFound? {
      return [ErrorEvent], status, sent, true;
    }
    if lastStatus != Some(found.status) {
      status := Some(found.status);
      events := [StatusEvent(found.status)];
    }
    assert events == NewStatus(world, n);
    if |found.lines| > sentLines {
      var logs := YieldLines(found.lines[sentLines..]);
      events := events + logs;
      sent := |found.lines|;
    }
    assert events == News(world, n);
    over := terminal(found.status);
    if over {
      events := events + [DoneEvent(found.status, false)];
    }
  }

  lemma RoundCloses<T>(world: nat -> Poll<T>, n: nat, terminal: string -> bool, sent: seq<Event<T>>)
    requires AllFound(world, n) && Ends(world(n), terminal)
    requires sent == Transcript(world, n) + RoundEvents(world, n, terminal)
    ensures sent == Sent(world, n + 1, terminal)
  {
  }

  lemma RoundContinues<T>(world: nat -> Poll<T>, n: nat, terminal: string -> bool, sent: seq<Event<T>>)
    requires AllFound(world, n) && !Ends(world(n), terminal)
    requires sent == Transcript(world, n) + RoundEvents(world, n, terminal)
    ensures AllFound(world, n + 1)
    ensures sent == Transcript(world, n + 1)
    ensures sent + [DoneEvent(world(n).status, true)] == Sent(world, n + 1, terminal)
  {
    assert AllFound(world, n + 1);
    assert News(world, n) + [] == News(world, n);
    Associative(Transcript(world, n), News(world, n), [DoneEvent(world(n).status, true)]);
  }

  /** The loop. Times are whole ticks; the polling interval must be positive, since with a
      zero interval the source's own time limit never triggers. */
  method StreamDeploymentLogs<T>(world: nat -> Poll<T>, terminal: string -> bool, interval: int, limit: int)
    returns (events: seq<Event<T>>, polls: nat)
    requires interval > 0
    ensures StopsAfter(world, polls, terminal, interval, limit)
    ensures events == Sent(world, polls, terminal)
  {
    hide News, RoundEvents, Sent;
    var sentLines, lastStatus, elapsed := 0, None, 0;
    events, polls := [], 0;
    while true
      invariant AllFound(world, polls)
      invariant RunsFor(world, polls, terminal, interval, limit)
      invariant elapsed == Elapsed(polls, interval)
      invariant events == Transcript(world, polls)
      invariant sentLines == Longest(world, polls)
      invariant lastStatus == if polls == 0 then None else Some(world(polls - 1).status)
      decreases limit - elapsed
    {
      var found := world(polls);
      var sending, over;
      sending, lastStatus, sentLines, over := StreamRound(world, polls, found, lastStatus, sentLines, terminal);
      events := events + sending;
      polls := polls + 1;
      if over {
        RoundCloses(world, polls - 1, terminal, events);
        return;
      }
      RoundContinues(world, polls - 1, terminal, events);
      elapsed := elapsed + interval;
      if elapsed >= limit {
        events := events + [DoneEvent(found.status, true)];
        return;
      }
    }
  }

  // ------------------------------------------------------------ when it stops

  function CeilDiv(a: int, b: int): int
    requires b > 0
  {
    (a + b - 1) / b
  }

  lemma CeilDivBounds(a: int, b: int, n: int)
    requires b > 0 && n * b < a
    ensures n + 1 <= CeilDiv(a, b)
  {
    assert (n + 1) * b <= a + b - 1;
    var q, r := (a + b - 1) / b, (a + b - 1) % b;
    if q < n + 1 {
      assert q * b <= n * b by {
        assert (n - q) * b >= 0;
      }
    }
  }

  /** The stream ends within ceil(limit / interval) polls, and always after at least one. */
  lemma PollsAreBounded<T>(world: nat -> Poll<T>, polls: nat, terminal: string -> bool, interval: int, limit: int)
    requires interval > 0 && StopsAfter(world, polls, terminal, interval, limit)
    ensures polls <= CeilDiv(limit, interval) || polls == 1
  {
    if polls > 1 {
      assert GoesOn(world, polls - 2, terminal, interval, limit);
      ElapsedIsProduct(polls - 1, interval);
      CeilDivBounds(limit, interval, polls - 1);
    }
  }

  lemma {:induction false} RunsExactly<T>(world: nat -> Poll<T>, n: nat, terminal: string -> bool,
                                          interval: int, limit: int)
    ensures RunsFor(world, n, terminal, interval, limit) <==>
            forall k: nat :: k < n ==> GoesOn(world, k, terminal, interval, limit)
  {
    if n > 0 {
      RunsExactly(world, n - 1, terminal, interval, limit);
    }
  }

  lemma GoesOnExactly<T>(world: nat -> Poll<T>, k: nat, terminal: string -> bool, interval: int, limit: int)
    ensures GoesOn(world, k, terminal, interval, limit) <==>
            world(k).Found? && !terminal(world(k).status) && (k + 1) * interval < limit
  {
    ElapsedIsProduct(k + 1, interval);
  }

  /** Neither the reader nor the deployment is gone, the build is not over, and there is time. */
  ghost predicate StillRunning<T>(found: Poll<T>, polls: nat, terminal: string -> bool, interval: int, limit: int) {
    found.Found? && !terminal(found.status) && polls * interval < limit
  }

  /** When a stream stops, said of the world alone: after the first poll that finds the reader or
      the deployment gone, or a terminal status, or the time used up; not before, not after. */
  lemma StopsExactly<T>(world: nat -> Poll<T>, polls: nat, terminal: string -> bool, interval: int, limit: int)
    ensures StopsAfter(world, polls, terminal, interval, limit) <==>
            && polls > 0
            && (forall k: nat :: k < polls - 1 ==> StillRunning(world(k), k + 1, terminal, interval, limit))
            && !StillRunning(world(polls - 1), polls, terminal, interval, limit)
  {
    hide GoesOn, RunsFor;
    if polls > 0 {
      RunsExactly(world, polls - 1, terminal, interval, limit);
      forall k: nat
        ensures GoesOn(world, k, terminal, interval, limit) <==>
                StillRunning(world(k), k + 1, terminal, interval, limit)
      {
        GoesOnExactly(world, k, terminal, interval, limit);
      }
      assert GoesOn(world, polls - 1, terminal, interval, limit) <==>
             StillRunning(world(polls - 1), polls, terminal, interval, limit);
    }
  }

  /** So a world has at most one point at which its stream can stop. */
  lemma StopsOnce<T>(world: nat -> Poll<T>, a: nat, b: nat, terminal: string -> bool, interval: int, limit: int)
    requires StopsAfter(world, a, terminal, interval, limit) && StopsAfter(world, b, terminal, interval, limit)
    ensures a == b
  {
    StopsExactly(world, a, terminal, interval, limit);
    StopsExactly(world, b, terminal, interval, limit);
    hide StopsAfter;
  }

  // ------------------------------------------------------------ what is sent

  /** The lines of the log events, in order. */
  ghost function LinesIn<T>(events: seq<Event<T>>): seq<T> {
    if events == [] then []
    else (if events[0].LogEvent? then [events[0].line] else []) + LinesIn(events[1..])
  }

  ghost function StatusesIn<T>(events: seq<Event<T>>): seq<string> {
    if events == [] then []
    else (if events[0].StatusEvent? then [events[0].status] else []) + StatusesIn(events[1..])
  }

  ghost predicate Closes<T>(e: Event<T>) {
    e.DoneEvent? || e.ErrorEvent?
  }

  lemma LinesCons<T>(e: Event<T>, rest: seq<Event<T>>)
    ensures LinesIn([e] + rest) == (if e.LogEvent? then [e.line] else []) + LinesIn(rest)
    ensures StatusesIn([e] + rest) == (if e.StatusEvent? then [e.status] else []) + StatusesIn(rest)
  {
    assert ([e] + rest)[1..] == rest;
  }

  lemma Associative<T>(a: seq<T>, b: seq<T>, c: seq<T>)
    ensures a + (b + c) == (a + b) + c
  {
  }

  lemma {:induction false} ProjectionsAppend<T>(a: seq<Event<T>>, b: seq<Event<T>>)
    ensures LinesIn(a + b) == LinesIn(a) + LinesIn(b)
    ensures StatusesIn(a + b) == StatusesIn(a) + StatusesIn(b)
  {
    if a == [] {
      assert a + b == b;
    } else {
      var e, rest := a[0], a[1..];
      assert a == [e] + rest;
      ProjectionsAppend(rest, b);
      Associative([e], rest, b);
      LinesCons(e, rest);
      LinesCons(e, rest + b);
      Associative(if e.LogEvent? then [e.line] else [], LinesIn(rest), LinesIn(b));
      Associative(if e.StatusEvent? then [e.status] else [], StatusesIn(rest), StatusesIn(b));
    }
  }

  lemma {:induction false} LinesOfLogEvents<T>(lines: seq<T>)
    ensures LinesIn(LogEvents(lines)) == lines
    ensures StatusesIn(LogEvents(lines)) == []
  {
    if lines != [] {
      assert LogEvents(lines)[1..] == LogEvents(lines[1..]);
      LinesOfLogEvents(lines[1..]);
    }
  }

  /** How each poll extends the lines and the statuses sent so far. */
  lemma TranscriptStep<T>(world: nat -> Poll<T>, n: nat)
    requires n > 0 && AllFound(world, n)
    ensures LinesIn(Transcript(world, n)) == LinesIn(Transcript(world, n - 1)) + NewLines(world, n - 1)
    ensures StatusesIn(Transcript(world, n)) ==
            StatusesIn(Transcript(world, n - 1)) + (if Repeats(world, n - 1) then [] else [world(n - 1).status])
  {
    ProjectionsAppend(Transcript(world, n - 1), News(world, n - 1));
    OneStatus(world(n - 1).status, Repeats(world, n - 1), NewLines(world, n - 1));
  }

  lemma OneStatus<T>(status: string, repeats: bool, lines: seq<T>)
    ensures var events := (if repeats then [] else [StatusEvent(status)]) + LogEvents(lines);
            LinesIn(events) == lines && StatusesIn(events) == if repeats then [] else [status]
  {
    var first: seq<Event<T>> := if repeats then [] else [StatusEvent(status)];
    ProjectionsAppend(first, LogEvents(lines));
    LinesOfLogEvents(lines);
    assert LinesIn(first) == [];
    assert StatusesIn(first) == if repeats then [] else [status];
  }

  /** Line i comes from the first poll whose list reaches past index i. */
  ghost predicate FirstSeenAt<T>(world: nat -> Poll<T>, n: nat, i: nat, line: T, k: nat)
    requires AllFound(world, n)
  {
    && k < n
    && i < |world(k).lines|
    && world(k).lines[i] == line
    && forall j :: 0 <= j < k ==> |world(j).lines| <= i
  }

  ghost predicate FirstSeen<T>(world: nat -> Poll<T>, n: nat, i: nat, line: T)
    requires AllFound(world, n)
  {
    exists k :: FirstSeenAt(world, n, i, line, k)
  }

  lemma {:induction false} LongestIsMax<T>(world: nat -> Poll<T>, n: nat)
    requires AllFound(world, n)
    ensures forall k :: 0 <= k < n ==> |world(k).lines| <= Longest(world, n)
  {
    if n > 0 {
      LongestIsMax(world, n - 1);
    }
  }

  /** Whatever is polled, even a list that shrinks: each index below the longest list seen is
      sent exactly once, in increasing order, with the content of its first appearance. */
  lemma {:induction false} EachIndexSentOnce<T>(world: nat -> Poll<T>, n: nat)
    requires AllFound(world, n)
    ensures |LinesIn(Transcript(world, n))| == Longest(world, n)
    ensures forall i :: 0 <= i < Longest(world, n) ==>
              FirstSeen(world, n, i, LinesIn(Transcript(world, n))[i])
  {
    if n > 0 {
      EachIndexSentOnce(world, n - 1);
      TranscriptStep(world, n);
      ExtendFirstSeen(world, n, LinesIn(Transcript(world, n - 1)));
    }
  }

  lemma ExtendFirstSeen<T>(world: nat -> Poll<T>, n: nat, sent: seq<T>)
    requires n > 0 && AllFound(world, n) && |sent| == Longest(world, n - 1)
    requires forall i :: 0 <= i < |sent| ==> FirstSeen(world, n - 1, i, sent[i])
    ensures var all := sent + NewLines(world, n - 1);
            |all| == Longest(world, n) && forall i :: 0 <= i < |all| ==> FirstSeen(world, n, i, all[i])
  {
    var all := sent + NewLines(world, n - 1);
    LongestIsMax(world, n - 1);
    forall i | 0 <= i < |all|
      ensures FirstSeen(world, n, i, all[i])
    {
      if i < |sent| {
        assert FirstSeen(world, n - 1, i, sent[i]);
        var k :| FirstSeenAt(world, n - 1, i, sent[i], k);
        assert FirstSeenAt(world, n, i, all[i], k);
      } else {
        assert FirstSeenAt(world, n, i, all[i], n - 1);
      }
    }
  }

  /** Poll k is the first one whose list reaches past index i. */
  ghost predicate NewAt<T>(world: nat -> Poll<T>, n: nat, k: nat, i: nat)
    requires AllFound(world, n)
  {
    && k < n
    && i < |world(k).lines|
    && forall j :: 0 <= j < k ==> |world(j).lines| <= i
  }

  lemma SameLists<T>(a: seq<T>, b: seq<T>)
    requires |b| <= |a| && forall i :: 0 <= i < |a| ==> i < |b| && a[i] == b[i]
    ensures a == b
  {
    if a != [] {
      assert a[|a| - 1] == b[|a| - 1];
    }
  }

  lemma SentIsNew<T>(world: nat -> Poll<T>, n: nat, i: nat) returns (k: nat)
    requires AllFound(world, n) && i < Longest(world, n)
    ensures |LinesIn(Transcript(world, n))| == Longest(world, n)
    ensures NewAt(world, n, k, i) && world(k).lines[i] == LinesIn(Transcript(world, n))[i]
  {
    EachIndexSentOnce(world, n);
    assert FirstSeen(world, n, i, LinesIn(Transcript(world, n))[i]);
    k :| FirstSeenAt(world, n, i, LinesIn(Transcript(world, n))[i], k);
  }

  /** For any polls at all: what was sent is the last list if, and only if, every line is still
      there, at its index, as it was when its index was first reached. */
  lemma DeliveredExactly<T>(world: nat -> Poll<T>, n: nat)
    requires n > 0 && AllFound(world, n)
    ensures var final := world(n - 1).lines;
            LinesIn(Transcript(world, n)) == final <==>
            forall k: nat, i: nat :: NewAt(world, n, k, i) ==> i < |final| && world(k).lines[i] == final[i]
  {
    var sent, final := LinesIn(Transcript(world, n)), world(n - 1).lines;
    EachIndexSentOnce(world, n);
    LongestIsMax(world, n);
    hide LinesIn, Transcript, Longest, FirstSeen;
    assert |world(n - 1).lines| <= Longest(world, n);
    if sent == final {
      forall k: nat, i: nat | NewAt(world, n, k, i)
        ensures i < |final| && world(k).lines[i] == final[i]
      {
        assert k < n && i < |world(k).lines| <= Longest(world, n);
        var first := SentIsNew(world, n, i);
        assert first == k;
      }
    }
    if forall k: nat, i: nat :: NewAt(world, n, k, i) ==> i < |final| && world(k).lines[i] == final[i] {
      forall i | 0 <= i < |sent|
        ensures i < |final| && sent[i] == final[i]
      {
        var k := SentIsNew(world, n, i);
      }
      assert |final| <= |sent|;
      assert forall i :: 0 <= i < |sent| ==> i < |final| && sent[i] == final[i];
      SameLists(sent, final);
    }
  }

  /** A sequence with consecutive repeats removed. */
  ghost function Squeeze(s: seq<string>): seq<string> {
    if |s| <= 1 then s
    else if s[|s| - 1] == s[|s| - 2] then Squeeze(s[..|s| - 1])
    else Squeeze(s[..|s| - 1]) + [s[|s| - 1]]
  }

  ghost function Statuses<T>(world: nat -> Poll<T>, n: nat): seq<string>
    requires AllFound(world, n)
  {
    if n == 0 then [] else Statuses(world, n - 1) + [world(n - 1).status]
  }

  lemma SqueezeSnoc(s: seq<string>, x: string, repeats: bool)
    requires repeats <==> s != [] && s[|s| - 1] == x
    ensures Squeeze(s + [x]) == Squeeze(s) + (if repeats then [] else [x])
  {
    assert (s + [x])[..|s|] == s;
    if !repeats && s == [] {
      assert Squeeze([x]) == [x];
    }
  }

  lemma LastStatus<T>(world: nat -> Poll<T>, n: nat)
    requires n > 0 && AllFound(world, n)
    ensures Statuses(world, n) != [] && Statuses(world, n)[|Statuses(world, n)| - 1] == world(n - 1).status
  {
  }

  /** The status events are the polled statuses without consecutive repeats. */
  lemma {:induction false} StatusesAreSqueezed<T>(world: nat -> Poll<T>, n: nat)
    requires AllFound(world, n)
    ensures StatusesIn(Transcript(world, n)) == Squeeze(Statuses(world, n))
  {
    if n > 0 {
      StatusesAreSqueezed(world, n - 1);
      TranscriptStep(world, n);
      if n > 1 {
        LastStatus(world, n - 1);
      }
      SqueezeSnoc(Statuses(world, n - 1), world(n - 1).status, Repeats(world, n - 1));
    }
  }

  lemma NewsStaysOpen<T>(world: nat -> Poll<T>, k: nat)
    requires AllFound(world, k + 1)
    ensures NeverClosed(News(world, k))
  {
  }

  lemma {:induction false} TranscriptStaysOpen<T>(world: nat -> Poll<T>, n: nat)
    requires AllFound(world, n)
    ensures NeverClosed(Transcript(world, n))
  {
    hide News;
    if n > 0 {
      TranscriptStaysOpen(world, n - 1);
      NewsStaysOpen(world, n - 1);
    }
  }

  /** The line lists only ever grow by appending. */
  ghost predicate OnlyAppends<T>(world: nat -> Poll<T>, n: nat) {
    && AllFound(world, n)
    && forall k :: 0 < k < n ==> world(k - 1).lines <= world(k).lines
  }

  ghost function FinalLines<T>(world: nat -> Poll<T>, n: nat): seq<T>
    requires AllFound(world, n)
  {
    if n == 0 then [] else world(n - 1).lines
  }

  lemma {:induction false} LastIsLongest<T>(world: nat -> Poll<T>, n: nat)
    requires OnlyAppends(world, n)
    ensures Longest(world, n) == |FinalLines(world, n)|
  {
    if n > 0 {
      LastIsLongest(world, n - 1);
    }
  }

  /** When the lists only grow by appending, the lines sent are the last list. */
  lemma {:induction false} AppendingLogArrivesWhole<T>(world: nat -> Poll<T>, n: nat)
    requires OnlyAppends(world, n)
    ensures LinesIn(Transcript(world, n)) == FinalLines(world, n)
  {
    if n > 0 {
      var have, lines := FinalLines(world, n - 1), world(n - 1).lines;
      AppendingLogArrivesWhole(world, n - 1);
      TranscriptStep(world, n);
      LastIsLongest(world, n - 1);
      NewLinesComplete(world, n - 1, have);
    }
  }

  lemma NewLinesComplete<T>(world: nat -> Poll<T>, n: nat, have: seq<T>)
    requires AllFound(world, n + 1) && |have| == Longest(world, n) && have <= world(n).lines
    ensures have + NewLines(world, n) == world(n).lines
  {
    Completes(have, world(n).lines);
  }

  lemma Completes<T>(have: seq<T>, lines: seq<T>)
    requires have <= lines
    ensures have + (if |lines| > |have| then lines[|have|..] else []) == lines
  {
    assert lines[..|have|] == have;
  }

  /** How many of the polls that a finished stream made found the deployment. */
  ghost function FoundPolls<T>(world: nat -> Poll<T>, polls: nat): nat
    requires polls > 0
  {
    if world(polls - 1).Found? then polls else polls - 1
  }

  /** One closing event, and that one last. */
  ghost predicate ClosedOnce<T>(events: seq<Event<T>>) {
    && events != []
    && Closes(events[|events| - 1])
    && forall i :: 0 <= i < |events| - 1 ==> !Closes(events[i])
  }

  ghost predicate NeverClosed<T>(events: seq<Event<T>>) {
    forall i :: 0 <= i < |events| ==> !Closes(events[i])
  }

  /** The event that ends a stream; none when the reader went away. */
  ghost function Closing<T>(world: nat -> Poll<T>, polls: nat, terminal: string -> bool): seq<Event<T>>
    requires polls > 0
  {
    match world(polls - 1)
    case Disconnected => []
    case NotFound => [ErrorEvent]
    case Found(status, _) => [DoneEvent(status, !terminal(status))]
  }

  /** A stream sends its transcript and then its closing event. */
  lemma SentIsClosed<T>(world: nat -> Poll<T>, polls: nat, terminal: string -> bool)
    requires polls > 0 && AllFound(world, polls - 1)
    ensures AllFound(world, FoundPolls(world, polls))
    ensures Sent(world, polls, terminal)
         == Transcript(world, FoundPolls(world, polls)) + Closing(world, polls, terminal)
  {
    if world(polls - 1).Found? {
      assert AllFound(world, polls);
      Associative(Transcript(world, polls - 1), News(world, polls - 1),
                  [DoneEvent(world(polls - 1).status, !terminal(world(polls - 1).status))]);
    } else if world(polls - 1).Disconnected? {
      assert Transcript(world, polls - 1) + [] == Transcript(world, polls - 1);
    }
  }

  /** The last event of a stream: the status polled last, with `timedOut` exactly when that status
      does not end a build; or that the deployment is gone. */
  lemma LastEventTells<T>(world: nat -> Poll<T>, polls: nat, terminal: string -> bool)
    requires polls > 0 && AllFound(world, polls - 1) && !world(polls - 1).Disconnected?
    ensures var events, found := Sent(world, polls, terminal), world(polls - 1);
            && events != []
            && if found.NotFound? then events[|events| - 1] == ErrorEvent
               else
                 && events[|events| - 1].DoneEvent?
                 && events[|events| - 1].status == found.status
                 && (events[|events| - 1].timedOut <==> !terminal(found.status))
  {
    hide Transcript, Sent;
    SentIsClosed(world, polls, terminal);
  }

  lemma CloseWith<T>(open: seq<Event<T>>, closing: seq<Event<T>>)
    requires NeverClosed(open) && |closing| <= 1 && (closing != [] ==> Closes(closing[0]))
    ensures LinesIn(open + closing) == LinesIn(open) && StatusesIn(open + closing) == StatusesIn(open)
    ensures if closing == [] then NeverClosed(open + closing) else ClosedOnce(open + closing)
  {
    ProjectionsAppend(open, closing);
    assert LinesIn(closing) == [] && StatusesIn(closing) == [];
  }

  /** Everything the loop sends, for a log that only grows: the final lines once each and in
      order, the statuses without repeats, and one closing event, at the end, unless the
      reader went away. */
  lemma StreamDelivers<T>(world: nat -> Poll<T>, polls: nat, terminal: string -> bool)
    requires polls > 0 && AllFound(world, polls - 1)
    requires OnlyAppends(world, FoundPolls(world, polls))
    ensures var events, n := Sent(world, polls, terminal), FoundPolls(world, polls);
            && LinesIn(events) == FinalLines(world, n)
            && StatusesIn(events) == Squeeze(Statuses(world, n))
            && (if world(polls - 1).Disconnected? then NeverClosed(events) else ClosedOnce(events))
  {
    hide Transcript, Sent, Statuses, Squeeze, FinalLines, LinesIn, StatusesIn;
    var n := FoundPolls(world, polls);
    AppendingLogArrivesWhole(world, n);
    StatusesAreSqueezed(world, n);
    TranscriptStaysOpen(world, n);
    SentIsClosed(world, polls, terminal);
    CloseWith(Transcript(world, n), Closing(world, polls, terminal));
  }
}
