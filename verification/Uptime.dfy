/** Uptime alerts (app/services/uptime.py): the scheduler's pass over all enabled monitors and the
    check of one monitor on demand. A check records what the probe found and alerts on a
    transition. Both run inside one database transaction, which a raising probe rolls back;
    alerts already sent stay sent. A probe's outcome is an input; a failing notifier changes
    nothing. */
module Uptime {

  datatype Status = Unknown | Up | Down

  datatype Event = AppDown | AppUp

  datatype Alert = Alert(monitor: nat, event: Event)

  datatype Monitor = Monitor(id: nat, enabled: bool, status: Status)

  /** Any transition, except a first probe that finds the target up. */
  predicate ShouldAlert(previous: Status, current: Status) {
    current != previous && !(previous == Unknown && current == Up)
  }

  /** What a probe can report. */
  type Probe = s: Status | s != Unknown witness Up

  /** `Raises` is an exception that `probe` does not catch: neither httpx.HTTPError nor OSError,
      as httpx.InvalidURL for a stored URL with an unreadable port. */
  datatype Outcome = Seen(status: Probe) | Raises

  /** The scheduler's pass, or one check asked for through the API. */
  datatype Step =
    | Pass(probe: nat -> Outcome)
    | CheckNow(id: nat, outcome: Outcome)

  /** Which monitors a step probes. */
  predicate Probes(t: Step, m: Monitor) {
    match t
    case Pass(_) => m.enabled
    case CheckNow(id, _) => m.id == id
  }

  function OutcomeOf(t: Step, m: Monitor): Outcome {
    match t
    case Pass(probe) => probe(m.id)
    case CheckNow(_, outcome) => outcome
  }

  predicate RaisesAt(t: Step, m: Monitor) {
    Probes(t, m) && OutcomeOf(t, m).Raises?
  }

  function EventOf(current: Probe): Event {
    if current == Down then AppDown else AppUp
  }

  function NewAlerts(m: Monitor, current: Probe): seq<Alert> {
    if ShouldAlert(m.status, current) then [Alert(m.id, EventOf(current))] else []
  }

  function MonitorAlerts(m: Monitor, t: Step): seq<Alert> {
    if Probes(t, m) && OutcomeOf(t, m).Seen? then NewAlerts(m, OutcomeOf(t, m).status) else []
  }

  /** Alerts sent while the first n monitors are checked. */
  function AlertsUpTo(monitors: seq<Monitor>, t: Step, n: nat): seq<Alert>
    requires n <= |monitors|
  {
    if n == 0 then [] else AlertsUpTo(monitors, t, n - 1) + MonitorAlerts(monitors[n - 1], t)
  }

  function Probed(m: Monitor, t: Step): Monitor {
    if Probes(t, m) && OutcomeOf(t, m).Seen? then m.(status := OutcomeOf(t, m).status) else m
  }

  function ProbedAll(monitors: seq<Monitor>, t: Step): (after: seq<Monitor>)
    ensures |after| == |monitors|
  {
    seq(|monitors|, i requires 0 <= i < |monitors| => Probed(monitors[i], t))
  }

  lemma CheckOf(m: Monitor, t: Step)
    ensures if Probes(t, m) && OutcomeOf(t, m).Seen? then
              && Probed(m, t) == m.(status := OutcomeOf(t, m).status)
              && MonitorAlerts(m, t) == NewAlerts(m, OutcomeOf(t, m).status)
            else
              Probed(m, t) == m && MonitorAlerts(m, t) == []
  {
  }

  /** The position of the first monitor whose probe raises, or the number of monitors. */
  function FirstRaise(monitors: seq<Monitor>, t: Step): (n: nat)
    ensures n <= |monitors|
    ensures forall i :: 0 <= i < n ==> !RaisesAt(t, monitors[i])
    ensures n < |monitors| ==> RaisesAt(t, monitors[n])
  {
    if monitors == [] || RaisesAt(t, monitors[0]) then 0 else 1 + FirstRaise(monitors[1..], t)
  }

  /** What is committed after a step: everything, or nothing when a probe raised. */
  function Committed(monitors: seq<Monitor>, t: Step): seq<Monitor> {
    if FirstRaise(monitors, t) == |monitors| then ProbedAll(monitors, t) else monitors
  }

  function AlertsOf(monitors: seq<Monitor>, t: Step): seq<Alert> {
    AlertsUpTo(monitors, t, FirstRaise(monitors, t))
  }

  class UptimeService {
    var monitors: seq<Monitor>
    var sent: seq<Alert>

    constructor (monitors: seq<Monitor>)
      ensures this.monitors == monitors && sent == []
    {
      this.monitors, sent := monitors, [];
    }

    method CheckOne(i: nat, outcome: Outcome) returns (raised: bool)
      requires i < |monitors|
      modifies this
      ensures raised <==> outcome.Raises?
      ensures monitors == if raised then old(monitors)
                          else old(monitors)[i := old(monitors)[i].(status := outcome.status)]
      ensures sent == old(sent) + if raised then [] else NewAlerts(old(monitors)[i], outcome.status)
    {
      var previous := monitors[i].status;
      if outcome.Raises? {
        return true;
      }
      var current := outcome.status;
      monitors := monitors[i := monitors[i].(status := current)];
      if ShouldAlert(previous, current) {
        sent := sent + [Alert(monitors[i].id, EventOf(current))];
      }
      return false;
    }

    /** The loop of `run_all_due`, and the one check of the API; an exception ends it. */
    method CheckAll(t: Step) returns (raised: bool)
      modifies this
      ensures raised <==> FirstRaise(old(monitors), t) < |old(monitors)|
      ensures !raised ==> monitors == ProbedAll(old(monitors), t)
      ensures sent == old(sent) + AlertsOf(old(monitors), t)
    {
      hide NewAlerts, Probed, MonitorAlerts, Probes, OutcomeOf, FirstRaise;
      ghost var before, already := monitors, sent;
      for i := 0 to |monitors|
        invariant |monitors| == |before|
        invariant i <= FirstRaise(before, t)
        invariant forall j :: 0 <= j < i ==> monitors[j] == Probed(before[j], t)
        invariant forall j :: i <= j < |monitors| ==> monitors[j] == before[j]
        invariant sent == already + AlertsUpTo(before, t, i)
      {
        CheckOf(before[i], t);
        if Probes(t, monitors[i]) {
          raised := CheckOne(i, OutcomeOf(t, monitors[i]));
          if raised {
            return;
          }
        }
      }
      raised := false;
    }

    /** The same inside `session_scope`: an exception rolls the statuses back. */
    method Run(t: Step) returns (raised: bool)
      modifies this
      ensures monitors == Committed(old(monitors), t)
      ensures sent == old(sent) + AlertsOf(old(monitors), t)
    {
      var committed := monitors;
      raised := CheckAll(t);
      if raised {
        monitors := committed;
      }
    }
  }

  // ------------------------------------------------------------ alternation

  /** The alerts about one monitor. */
  ghost function About(alerts: seq<Alert>, id: nat): seq<Event> {
    if alerts == [] then []
    else
      var last := alerts[|alerts| - 1];
      About(alerts[..|alerts| - 1], id) + (if last.monitor == id then [last.event] else [])
  }

  /** Down first, then up and down in turn. */
  ghost predicate Alternates(events: seq<Event>) {
    forall i :: 0 <= i < |events| ==> (events[i] == AppDown <==> i % 2 == 0)
  }

  /** The alerts alternate and the latest one tells whether the monitor is down. */
  ghost predicate Tells(events: seq<Event>, status: Status) {
    && Alternates(events)
    && (status == Down <==> events != [] && events[|events| - 1] == AppDown)
  }

  ghost predicate AllConsistent(monitors: seq<Monitor>, alerts: seq<Alert>) {
    forall i :: 0 <= i < |monitors| ==> Tells(About(alerts, monitors[i].id), monitors[i].status)
  }

  ghost predicate DistinctIds(monitors: seq<Monitor>) {
    forall i, j :: 0 <= i < j < |monitors| ==> monitors[i].id != monitors[j].id
  }

  /** A monitor alerts, and then the probe of a later one raises. */
  ghost predicate Spoils(monitors: seq<Monitor>, t: Step) {
    var n := FirstRaise(monitors, t);
    n < |monitors| && exists i :: 0 <= i < n && MonitorAlerts(monitors[i], t) != []
  }

  lemma {:induction false} AboutAppend(a: seq<Alert>, b: seq<Alert>, id: nat)
    ensures About(a + b, id) == About(a, id) + About(b, id)
  {
    if b == [] {
      assert a + b == a;
    } else {
      assert (a + b)[..|a + b| - 1] == a + b[..|b| - 1];
      AboutAppend(a, b[..|b| - 1], id);
    }
  }

  ghost function OwnEvents(m: Monitor, t: Step): seq<Event> {
    if Probes(t, m) && OutcomeOf(t, m).Seen? && ShouldAlert(m.status, OutcomeOf(t, m).status)
    then [EventOf(OutcomeOf(t, m).status)] else []
  }

  lemma AboutOwn(m: Monitor, t: Step, id: nat)
    ensures About(MonitorAlerts(m, t), id) == if m.id == id then OwnEvents(m, t) else []
    ensures MonitorAlerts(m, t) == [] <==> OwnEvents(m, t) == []
  {
    var alerts := MonitorAlerts(m, t);
    if alerts != [] {
      assert alerts[..0] == [];
    }
  }

  /** Among the first n monitors, one that is not there gets nothing. */
  lemma {:induction false} NothingAboutOthers(monitors: seq<Monitor>, t: Step, n: nat, id: nat)
    requires n <= |monitors|
    requires forall i :: 0 <= i < n ==> monitors[i].id != id
    ensures About(AlertsUpTo(monitors, t, n), id) == []
  {
    hide MonitorAlerts;
    if n > 0 {
      NothingAboutOthers(monitors, t, n - 1, id);
      AboutAppend(AlertsUpTo(monitors, t, n - 1), MonitorAlerts(monitors[n - 1], t), id);
      AboutOwn(monitors[n - 1], t, id);
    }
  }

  /** Monitor k gets the alert of its own check, if it was reached. */
  lemma {:induction false} AboutEach(monitors: seq<Monitor>, t: Step, n: nat, k: nat)
    requires n <= |monitors| && k < |monitors| && DistinctIds(monitors)
    ensures About(AlertsUpTo(monitors, t, n), monitors[k].id) == if k < n then OwnEvents(monitors[k], t) else []
  {
    hide MonitorAlerts, OwnEvents, About;
    var id := monitors[k].id;
    if k >= n {
      NothingAboutOthers(monitors, t, n, id);
    } else {
      AboutAppend(AlertsUpTo(monitors, t, n - 1), MonitorAlerts(monitors[n - 1], t), id);
      AboutOwn(monitors[n - 1], t, id);
      AboutEach(monitors, t, n - 1, k);
    }
  }

  /** One check: recording what was found goes together with its alert; leaving it unrecorded
      goes together with no alert. */
  lemma OneCheck(m: Monitor, events: seq<Event>, t: Step)
    requires Tells(events, m.status)
    ensures Tells(events + OwnEvents(m, t), Probed(m, t).status)
    ensures Tells(events + OwnEvents(m, t), m.status) <==> OwnEvents(m, t) == []
  {
    LatestByParity(events, m.status);
    var after := events + OwnEvents(m, t);
    if OwnEvents(m, t) != [] {
      assert |after| == |events| + 1 && after[..|events|] == events;
      assert after[|events|] == OwnEvents(m, t)[0];
    } else {
      assert after == events;
    }
  }

  lemma LatestByParity(events: seq<Event>, status: Status)
    requires Tells(events, status)
    ensures status == Down <==> |events| % 2 == 1
  {
  }

  /** A step keeps every monitor's alerts in line with its status if, and only if, no monitor
      alerted before a probe raised. */
  lemma StepKeepsExactly(monitors: seq<Monitor>, sent: seq<Alert>, t: Step)
    requires DistinctIds(monitors) && AllConsistent(monitors, sent)
    ensures DistinctIds(Committed(monitors, t))
    ensures AllConsistent(Committed(monitors, t), sent + AlertsOf(monitors, t)) <==> !Spoils(monitors, t)
  {
    hide Tells, OwnEvents, AlertsUpTo, About, MonitorAlerts;
    var n, after, all := FirstRaise(monitors, t), Committed(monitors, t), sent + AlertsOf(monitors, t);
    forall k | 0 <= k < |monitors|
      ensures after[k].id == monitors[k].id
      ensures Tells(About(all, monitors[k].id), after[k].status)
              <==> n == |monitors| || k >= n || MonitorAlerts(monitors[k], t) == []
    {
      AboutAppend(sent, AlertsUpTo(monitors, t, n), monitors[k].id);
      AboutEach(monitors, t, n, k);
      AboutOwn(monitors[k], t, monitors[k].id);
      OneCheck(monitors[k], About(sent, monitors[k].id), t);
      if k >= n {
        assert About(sent, monitors[k].id) + [] == About(sent, monitors[k].id);
      }
    }
  }

  // ------------------------------------------------------------ runs

  function MonitorsAfter(monitors: seq<Monitor>, steps: seq<Step>): seq<Monitor> {
    if steps == [] then monitors
    else Committed(MonitorsAfter(monitors, steps[..|steps| - 1]), steps[|steps| - 1])
  }

  function AlertsAfter(monitors: seq<Monitor>, steps: seq<Step>): seq<Alert> {
    if steps == [] then []
    else
      var before := steps[..|steps| - 1];
      AlertsAfter(monitors, before) + AlertsOf(MonitorsAfter(monitors, before), steps[|steps| - 1])
  }

  ghost predicate AlwaysConsistent(monitors: seq<Monitor>, steps: seq<Step>) {
    && (steps != [] ==> AlwaysConsistent(monitors, steps[..|steps| - 1]))
    && AllConsistent(MonitorsAfter(monitors, steps), AlertsAfter(monitors, steps))
  }

  ghost predicate NoneSpoils(monitors: seq<Monitor>, steps: seq<Step>) {
    steps != [] ==>
      var before := steps[..|steps| - 1];
      NoneSpoils(monitors, before) && !Spoils(MonitorsAfter(monitors, before), steps[|steps| - 1])
  }

  ghost predicate Fresh(monitors: seq<Monitor>) {
    DistinctIds(monitors) && forall i :: 0 <= i < |monitors| ==> monitors[i].status == Unknown
  }

  lemma {:induction false} RunsKeepIds(monitors: seq<Monitor>, steps: seq<Step>)
    requires DistinctIds(monitors)
    ensures DistinctIds(MonitorsAfter(monitors, steps))
  {
    if steps != [] {
      RunsKeepIds(monitors, steps[..|steps| - 1]);
    }
  }

  /** Over any number of passes and single checks, whatever the probes do: at every moment each
      monitor's alerts alternate between down and up, starting with down, the latest telling
      whether the monitor is down, if and only if in no pass a monitor alerted before the probe
      of another one raised. */
  lemma {:induction false} AlertsAlternateExactly(monitors: seq<Monitor>, steps: seq<Step>)
    requires Fresh(monitors)
    ensures AlwaysConsistent(monitors, steps) <==> NoneSpoils(monitors, steps)
  {
    hide Committed, AlertsOf, Spoils, AllConsistent;
    if steps == [] {
      NothingSent(monitors);
    } else {
      var before := steps[..|steps| - 1];
      AlertsAlternateExactly(monitors, before);
      RunsKeepIds(monitors, before);
      if AlwaysConsistent(monitors, before) {
        LastIsConsistent(monitors, before);
        StepKeepsExactly(MonitorsAfter(monitors, before), AlertsAfter(monitors, before), steps[|steps| - 1]);
      }
    }
  }

  lemma LastIsConsistent(monitors: seq<Monitor>, steps: seq<Step>)
    requires AlwaysConsistent(monitors, steps)
    ensures AllConsistent(MonitorsAfter(monitors, steps), AlertsAfter(monitors, steps))
  {
  }

  lemma NothingSent(monitors: seq<Monitor>)
    requires Fresh(monitors)
    ensures AllConsistent(monitors, [])
  {
  }

  ghost predicate NeverRaises(t: Step) {
    forall m :: Probes(t, m) ==> OutcomeOf(t, m).Seen?
  }

  /** In particular they do when every URL can be probed. */
  lemma {:induction false} AlertsAlternate(monitors: seq<Monitor>, steps: seq<Step>)
    requires Fresh(monitors)
    requires forall i :: 0 <= i < |steps| ==> NeverRaises(steps[i])
    ensures NoneSpoils(monitors, steps) && AlwaysConsistent(monitors, steps)
  {
    if steps != [] {
      var before := steps[..|steps| - 1];
      AlertsAlternate(monitors, before);
      assert NeverRaises(steps[|steps| - 1]);
    }
    AlertsAlternateExactly(monitors, steps);
  }

  /** What the last step that was not rolled back saw of a monitor; Unknown before the first. */
  ghost predicate LastSeen(monitors: seq<Monitor>, steps: seq<Step>, i: nat, status: Status)
    requires i < |monitors|
  {
    if steps == [] then status == monitors[i].status
    else
      var before, t := steps[..|steps| - 1], steps[|steps| - 1];
      var m := monitors[i];
      if Probes(t, m) && forall k :: 0 <= k < |monitors| ==> !RaisesAt(t, monitors[k])
      then status != Unknown && Seen(status) == OutcomeOf(t, m)
      else LastSeen(monitors, before, i, status)
  }

  ghost predicate SameApartFromStatus(a: seq<Monitor>, b: seq<Monitor>) {
    |a| == |b| && forall i :: 0 <= i < |a| ==> a[i].id == b[i].id && a[i].enabled == b[i].enabled
  }

  /** At every moment a monitor's status is what the last step that was not rolled back saw. */
  lemma {:induction false} StatusIsLastSeen(monitors: seq<Monitor>, steps: seq<Step>, i: nat)
    requires i < |monitors|
    ensures SameApartFromStatus(monitors, MonitorsAfter(monitors, steps))
    ensures LastSeen(monitors, steps, i, MonitorsAfter(monitors, steps)[i].status)
  {
    if steps != [] {
      var before, t := steps[..|steps| - 1], steps[|steps| - 1];
      StatusIsLastSeen(monitors, before, i);
      var was := MonitorsAfter(monitors, before);
      assert forall k :: 0 <= k < |monitors| ==> (RaisesAt(t, was[k]) <==> RaisesAt(t, monitors[k]));
      assert FirstRaise(was, t) == |was| <==> forall k :: 0 <= k < |was| ==> !RaisesAt(t, was[k]);
    }
  }

  // ------------------------------------------------------------ the failing run

  /** Monitor 0 is down, and the URL of monitor 1 cannot be probed. */
  function DownThenRaise(): Step {
    Pass((id: nat) => if id == 0 then Seen(Down) else Raises)
  }

  /** Two passes then send two down alerts in a row, and so would every further one: the first
      pass is rolled back, so the second finds the monitor in its old state again. */
  lemma DownIsSentAgain()
    ensures var monitors := [Monitor(0, true, Unknown), Monitor(1, true, Unknown)];
            var steps := [DownThenRaise(), DownThenRaise()];
            && Fresh(monitors)
            && About(AlertsAfter(monitors, steps), 0) == [AppDown, AppDown]
            && !Alternates(About(AlertsAfter(monitors, steps), 0))
  {
    hide Committed, AlertsOf;
    var monitors, t := [Monitor(0, true, Unknown), Monitor(1, true, Unknown)], DownThenRaise();
    var alert := Alert(0, AppDown);
    RaisesSecond(monitors, t);
    OneMoreStep(monitors, [], t);
    OneMoreStep(monitors, [t], t);
    assert [] + [t] == [t] && [t] + [t] == [t, t];
    assert AlertsAfter(monitors, [t, t]) == [alert] + [alert];
    AboutAppend([alert], [alert], 0);
    AboutOne(alert);
    assert [AppDown, AppDown][1] == AppDown;
  }

  lemma OneMoreStep(monitors: seq<Monitor>, before: seq<Step>, t: Step)
    ensures MonitorsAfter(monitors, before + [t]) == Committed(MonitorsAfter(monitors, before), t)
    ensures AlertsAfter(monitors, before + [t])
         == AlertsAfter(monitors, before) + AlertsOf(MonitorsAfter(monitors, before), t)
  {
    assert (before + [t])[..|before|] == before;
  }

  lemma AboutOne(alert: Alert)
    ensures About([alert], alert.monitor) == [alert.event]
  {
    assert [alert][..0] == [];
  }

  lemma RaisesSecond(monitors: seq<Monitor>, t: Step)
    requires monitors == [Monitor(0, true, Unknown), Monitor(1, true, Unknown)] && t == DownThenRaise()
    ensures Committed(monitors, t) == monitors
    ensures AlertsOf(monitors, t) == [Alert(0, AppDown)]
  {
    assert !RaisesAt(t, monitors[0]) && RaisesAt(t, monitors[1]);
    assert FirstRaise(monitors, t) == 1;
    assert AlertsUpTo(monitors, t, 0) == [];
    assert MonitorAlerts(monitors[0], t) == [Alert(0, AppDown)];
  }
}
