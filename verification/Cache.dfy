/** `TTLCache` (app/cache.py). Each of `get`, `set` and `delete` holds the lock and is atomic;
    `get_or_set` is not: a look-up, the caller's factory and a store, with any other client's
    steps in between. The module gives the class, then the interleaved runs of many clients,
    and compares them with a log of all stores and deletes from which nothing is evicted. */
module Cache {
  import opened Text

  /** An opaque Python object other than None; a stored value may also be None. */
  type Object = nat

  type Stored = Option<Object>

  datatype Entry = Entry(value: Stored, expiresAt: int)

  type Entries = map<string, Entry>

  /** `get`: the new table and the answer. An expired entry is dropped on the way. */
  function Lookup(entries: Entries, key: string, now: int): (Entries, Stored) {
    if key !in entries then (entries, None)
    else if entries[key].expiresAt <= now then (entries - {key}, None)
    else (entries, entries[key].value)
  }

  class TTLCache {
    var entries: Entries

    constructor ()
      ensures entries == map[]
    {
      entries := map[];
    }

    method Get(key: string, now: int) returns (value: Stored)
      modifies this
      ensures entries == Lookup(old(entries), key, now).0
      ensures value == Lookup(old(entries), key, now).1
    {
      if key !in entries {
        return None;
      }
      var entry := entries[key];
      if entry.expiresAt <= now {
        entries := entries - {key};
        return None;
      }
      return entry.value;
    }

    method Set(key: string, value: Stored, ttl: int, now: int)
      modifies this
      ensures entries == old(entries)[key := Entry(value, now + ttl)]
    {
      entries := entries[key := Entry(value, now + ttl)];
    }

    method Delete(key: string)
      modifies this
      ensures entries == old(entries) - {key}
    {
      entries := entries - {key};
    }
  }

  // ------------------------------------------------------------ interleaved clients

  type Client = nat

  /** Where a client is inside `get_or_set`. `began` is the length of the log when it looked. */
  datatype Phase =
    | Idle
    | Filling(key: string, ttl: int, began: nat)
    | Storing(key: string, ttl: int, value: Stored, began: nat)

  datatype Action =
    | Look(client: Client, key: string, ttl: int)   // the look-up that opens get_or_set
    | Finish(client: Client, value: Stored)         // the client's factory returns
    | Keep(client: Client)                          // the value is stored and returned
    | Delete(key: string)
    | Put(key: string, value: Stored, ttl: int)     // a plain set
    | Peek(client: Client, key: string)             // a plain get

  datatype Timed = Timed(action: Action, at: int)

  /** The never-evicting history; a store knows when its call began, which for a plain set is when
      it stores. */
  datatype Logged =
    | Store(key: string, value: Stored, at: int, ttl: int, began: nat)
    | Erase(key: string)

  /** What a `get_or_set` or a `get` returned; `seen` is the length of the log at that moment. */
  datatype Answer =
    | Hit(client: Client, key: string, found: Object, at: int, seen: nat)
    | Own(client: Client, key: string, value: Stored)

  datatype State = State(
    entries: Entries,
    phases: map<Client, Phase>,
    log: seq<Logged>,
    answers: seq<Answer>)

  const Start := State(map[], map[], [], [])

  function PhaseOf(s: State, c: Client): Phase {
    if c in s.phases then s.phases[c] else Idle
  }

  predicate Enabled(s: State, a: Action) {
    match a
    case Look(c, _, _) => PhaseOf(s, c).Idle?
    case Finish(c, _) => PhaseOf(s, c).Filling?
    case Keep(c) => PhaseOf(s, c).Storing?
    case Delete(_) => true
    case Put(_, _, _) => true
    case Peek(_, _) => true
  }

  function Next(s: State, t: Timed): State
    requires Enabled(s, t.action)
  {
    match t.action
    case Look(c, key, ttl) =>
      var (entries, value) := Lookup(s.entries, key, t.at);
      if value.Some? then
        s.(entries := entries, answers := s.answers + [Hit(c, key, value.value, t.at, |s.log|)])
      else
        s.(entries := entries, phases := s.phases[c := Filling(key, ttl, |s.log|)])
    case Finish(c, value) =>
      var p := PhaseOf(s, c);
      s.(phases := s.phases[c := Storing(p.key, p.ttl, value, p.began)])
    case Keep(c) =>
      var p := PhaseOf(s, c);
      State(s.entries[p.key := Entry(p.value, t.at + p.ttl)],
            s.phases[c := Idle],
            s.log + [Store(p.key, p.value, t.at, p.ttl, p.began)],
            s.answers + [Own(c, p.key, p.value)])
    case Delete(key) =>
      s.(entries := s.entries - {key}, log := s.log + [Erase(key)])
    case Put(key, value, ttl) =>
      s.(entries := s.entries[key := Entry(value, t.at + ttl)],
         log := s.log + [Store(key, value, t.at, ttl, |s.log|)])
    case Peek(c, key) =>
      var (entries, value) := Lookup(s.entries, key, t.at);
      s.(entries := entries,
         answers := s.answers + if value.Some? then [Hit(c, key, value.value, t.at, |s.log|)] else [])
  }

  /** Every step is possible where it is taken. */
  ghost predicate Legal(run: seq<Timed>)
    decreases |run|, 0
  {
    run == [] || (Legal(run[..|run| - 1]) && Enabled(Reach(run[..|run| - 1]), run[|run| - 1].action))
  }

  ghost function Reach(run: seq<Timed>): State
    requires Legal(run)
    decreases |run|, 1
  {
    if run == [] then Start else Next(Reach(run[..|run| - 1]), run[|run| - 1])
  }

  /** The clock never runs backwards. */
  ghost predicate Monotone(run: seq<Timed>) {
    forall i, j :: 0 <= i < j < |run| ==> run[i].at <= run[j].at
  }

  // ------------------------------------------------------------ the reference

  /** The latest store of a key, unless a delete came after it. */
  ghost function Latest(log: seq<Logged>, key: string): Option<Logged> {
    if log == [] then None
    else
      var last := log[|log| - 1];
      if last.key != key then Latest(log[..|log| - 1], key)
      else if last.Store? then Some(last)
      else None
  }

  ghost predicate Live(entry: Logged, now: int) {
    entry.Store? && now < entry.at + entry.ttl
  }

  /** What a cache that never evicts would answer. */
  ghost function Visible(log: seq<Logged>, key: string, now: int): Stored {
    var latest := Latest(log, key);
    if latest.Some? && Live(latest.value, now) then latest.value.value else None
  }

  // ------------------------------------------------------------ lazy eviction is unobservable

  ghost predicate KeyAgrees(s: State, key: string, clock: int) {
    var latest := Latest(s.log, key);
    if latest.None? then key !in s.entries
    else
      var entry := latest.value;
      && entry.Store?
      && entry.at <= clock
      && (if key in s.entries then s.entries[key] == Entry(entry.value, entry.at + entry.ttl)
          else entry.at + entry.ttl <= clock)
  }

  ghost predicate Agrees(s: State, clock: int) {
    forall key :: KeyAgrees(s, key, clock)
  }

  lemma LatestAppend(log: seq<Logged>, e: Logged, key: string)
    ensures Latest(log + [e], key) ==
            if e.key != key then Latest(log, key) else if e.Store? then Some(e) else None
  {
    assert (log + [e])[..|log|] == log;
  }

  lemma StepKeepsAgreement(s: State, t: Timed, clock: int)
    requires Enabled(s, t.action) && Agrees(s, clock) && clock <= t.at
    ensures Agrees(Next(s, t), t.at)
  {
    var after := Next(s, t);
    forall key
      ensures KeyAgrees(after, key, t.at)
    {
      assert KeyAgrees(s, key, clock);
      match t.action
      case Look(_, looked, _) =>
      case Finish(_, _) =>
      case Keep(c) =>
        var p := PhaseOf(s, c);
        LatestAppend(s.log, Store(p.key, p.value, t.at, p.ttl, p.began), key);
      case Delete(gone) =>
        LatestAppend(s.log, Erase(gone), key);
      case Put(put, value, ttl) =>
        LatestAppend(s.log, Store(put, value, t.at, ttl, |s.log|), key);
      case Peek(_, peeked) =>
    }
  }

  ghost function Clock(run: seq<Timed>): int
    requires run != []
  {
    run[|run| - 1].at
  }

  lemma {:induction false} RunsAgree(run: seq<Timed>, clock: int)
    requires Legal(run) && Monotone(run)
    requires run != [] ==> Clock(run) <= clock
    ensures Agrees(Reach(run), clock)
  {
    if run != [] {
      var before, t := run[..|run| - 1], run[|run| - 1];
      RunsAgree(before, t.at);
      StepKeepsAgreement(Reach(before), t, t.at);
      forall key
        ensures KeyAgrees(Reach(run), key, clock)
      {
        assert KeyAgrees(Reach(run), key, t.at);
      }
    }
  }

  /** In every interleaving, each look-up finds exactly what the never-evicting log shows: it
      answers from the latest live store, or else starts the client's own factory. */
  lemma LookupsMatchTheLog(run: seq<Timed>, c: Client, key: string, ttl: int, now: int)
    requires Legal(run) && Monotone(run) && (run != [] ==> Clock(run) <= now)
    requires PhaseOf(Reach(run), c).Idle?
    ensures var s, after := Reach(run), Next(Reach(run), Timed(Look(c, key, ttl), now));
            var visible := Visible(s.log, key, now);
            if visible.Some? then
              && after.answers == s.answers + [Hit(c, key, visible.value, now, |s.log|)]
              && after.phases == s.phases
            else
              after.answers == s.answers && PhaseOf(after, c) == Filling(key, ttl, |s.log|)
    ensures var s, after := Reach(run), Next(Reach(run), Timed(Peek(c, key), now));
            var visible := Visible(s.log, key, now);
            after.answers == s.answers + if visible.Some? then [Hit(c, key, visible.value, now, |s.log|)] else []
  {
    RunsAgree(run, now);
    assert KeyAgrees(Reach(run), key, now);
  }

  // ------------------------------------------------------------ where answers come from

  /** Log entry i is the latest on its key before position n, was live at the time of the hit,
      and holds the object the hit returned. */
  ghost predicate Explains(log: seq<Logged>, i: nat, h: Answer)
    requires h.Hit?
  {
    && i < h.seen <= |log|
    && log[i].Store?
    && log[i].key == h.key && log[i].value == Some(h.found)
    && log[i].at <= h.at < log[i].at + log[i].ttl
    && forall j :: i < j < h.seen ==> log[j].key != h.key
  }

  ghost predicate Explained(log: seq<Logged>, h: Answer)
    requires h.Hit?
  {
    exists i :: Explains(log, i, h)
  }

  lemma {:induction false} LatestIndex(log: seq<Logged>, key: string) returns (i: nat)
    requires Latest(log, key).Some?
    ensures i < |log| && log[i] == Latest(log, key).value && log[i].Store? && log[i].key == key
    ensures forall j :: i < j < |log| ==> log[j].key != key
  {
    i := |log| - 1;
    if log[|log| - 1].key != key {
      i := LatestIndex(log[..|log| - 1], key);
    }
  }

  lemma ExplainedLater(log: seq<Logged>, more: seq<Logged>, h: Answer)
    requires h.Hit? && Explained(log, h)
    ensures Explained(log + more, h)
  {
    var i :| Explains(log, i, h);
    assert Explains(log + more, i, h);
  }

  lemma NewHitIsExplained(s: State, t: Timed, clock: int)
    requires (t.action.Look? || t.action.Peek?) && Enabled(s, t.action) && Agrees(s, clock) && clock <= t.at
    requires |Next(s, t).answers| > |s.answers|
    ensures var h := Next(s, t).answers[|s.answers|]; h.Hit? && Explained(s.log, h)
  {
    assert KeyAgrees(s, t.action.key, clock);
    var h := Next(s, t).answers[|s.answers|];
    var i := LatestIndex(s.log, t.action.key);
    assert Explains(s.log, i, h);
  }

  /** Every cached hit, in every interleaving, returned a live object: stored under that key
      less than its time-to-live ago, with no later store and no later delete. */
  lemma {:induction false} EveryHitIsExplained(run: seq<Timed>)
    requires Legal(run) && Monotone(run)
    ensures forall h :: h in Reach(run).answers && h.Hit? ==> Explained(Reach(run).log, h)
  {
    if run != [] {
      var before, t := run[..|run| - 1], run[|run| - 1];
      var s, after := Reach(before), Reach(run);
      EveryHitIsExplained(before);
      RunsAgree(before, t.at);
      assert after.log == s.log + after.log[|s.log|..];
      forall h | h in after.answers && h.Hit?
        ensures Explained(after.log, h)
      {
        if h !in s.answers {
          NewHitIsExplained(s, t, t.at);
        }
        ExplainedLater(s.log, after.log[|s.log|..], h);
      }
    }
  }

  predicate Acts(a: Action, c: Client) {
    (a.Look? || a.Finish? || a.Keep?) && a.client == c
  }

  /** The client's last step was its factory returning `value`, for a call that asked for
      `key` with `ttl` and had seen `began` log entries. */
  ghost predicate Produced(run: seq<Timed>, i: nat, j: nat, c: Client, p: Phase)
    requires p.Storing?
  {
    && i < j < |run|
    && run[i].action == Look(c, p.key, p.ttl)
    && run[j].action == Finish(c, p.value)
    && (forall k :: i < k < |run| && k != j ==> !Acts(run[k].action, c))
  }

  ghost predicate Asked(run: seq<Timed>, i: nat, c: Client, p: Phase)
    requires p.Filling?
  {
    && i < |run|
    && run[i].action == Look(c, p.key, p.ttl)
    && (forall k :: i < k < |run| ==> !Acts(run[k].action, c))
  }

  lemma {:induction false} PhaseHasHistory(run: seq<Timed>, c: Client) returns (i: nat, j: nat)
    requires Legal(run)
    ensures PhaseOf(Reach(run), c).Filling? ==> Asked(run, i, c, PhaseOf(Reach(run), c))
    ensures PhaseOf(Reach(run), c).Storing? ==> Produced(run, i, j, c, PhaseOf(Reach(run), c))
  {
    i, j := 0, 0;
    if run != [] {
      var before, t := run[..|run| - 1], run[|run| - 1];
      i, j := PhaseHasHistory(before, c);
      if t.action.Look? && t.action.client == c {
        i := |run| - 1;
      } else if t.action.Finish? && t.action.client == c {
        j := |run| - 1;
      }
    }
  }

  /** A call that is not answered from the cache returns what its own factory produced for the
      key it asked for, whatever other clients stored or deleted meanwhile. */
  lemma MissReturnsOwnValue(run: seq<Timed>, c: Client, now: int) returns (i: nat, j: nat)
    requires Legal(run) && PhaseOf(Reach(run), c).Storing?
    ensures var p, after := PhaseOf(Reach(run), c), Next(Reach(run), Timed(Keep(c), now));
            && Produced(run, i, j, c, p)
            && after.answers == Reach(run).answers + [Own(c, p.key, p.value)]
  {
    i, j := PhaseHasHistory(run, c);
  }

  // ------------------------------------------------------------ what a delete guarantees

  /** A fill that can still leave something visible under the key. */
  ghost predicate InFlight(p: Phase, key: string) {
    && !p.Idle? && p.key == key && p.ttl > 0
    && (p.Storing? ==> p.value.Some?)
  }

  ghost predicate NoFillInFlight(s: State, key: string) {
    forall c :: !InFlight(PhaseOf(s, c), key)
  }

  /** Nothing visible under `key`, now or through a running fill, was begun before log position m. */
  ghost predicate FreshSince(s: State, key: string, m: nat) {
    && m <= |s.log|
    && (forall c :: InFlight(PhaseOf(s, c), key) ==> PhaseOf(s, c).began >= m)
    && (forall i :: m <= i < |s.log| ==> StoreIsFresh(s.log[i], key, m))
  }

  ghost predicate StoreIsFresh(e: Logged, key: string, m: nat) {
    e.Store? && e.key == key && e.ttl > 0 && e.value.Some? ==> e.began >= m
  }

  lemma StepKeepsFresh(s: State, t: Timed, key: string, m: nat)
    requires Enabled(s, t.action) && FreshSince(s, key, m)
    ensures FreshSince(Next(s, t), key, m)
  {
    var after := Next(s, t);
    forall c
      ensures InFlight(PhaseOf(after, c), key) ==> PhaseOf(after, c).began >= m
    {
      assert InFlight(PhaseOf(s, c), key) ==> PhaseOf(s, c).began >= m;
    }
    if t.action.Keep? {
      assert InFlight(PhaseOf(s, t.action.client), key) ==> PhaseOf(s, t.action.client).began >= m;
    }
  }

  /** A hit on `key` after the delete whose object comes from a call begun before it. */
  ghost predicate Stale(log: seq<Logged>, h: Answer, key: string, m: nat) {
    && h.Hit? && h.key == key && m <= h.seen
    && exists i: nat :: Explains(log, i, h) && log[i].began < m
  }

  /** However the run goes on after the delete, no hit on the key is stale. */
  ghost predicate DeleteIsFinal(run: seq<Timed>, key: string)
    requires Legal(run)
  {
    forall more :: Legal(run + more) && Monotone(run + more) ==>
      forall h :: h in Reach(run + more).answers ==> !Stale(Reach(run + more).log, h, key, |Reach(run).log|)
  }

  ghost predicate EndsInDelete(run: seq<Timed>, key: string) {
    run != [] && run[|run| - 1].action == Delete(key)
  }

  lemma {:induction false} FreshRun(run: seq<Timed>, more: seq<Timed>, key: string, m: nat)
    requires Legal(run) && Legal(run + more) && FreshSince(Reach(run), key, m)
    requires m > 0 && Reach(run).log[m - 1] == Erase(key)
    ensures FreshSince(Reach(run + more), key, m)
    ensures Reach(run + more).log[m - 1] == Erase(key)
  {
    if more == [] {
      assert run + more == run;
    } else {
      var all := run + more;
      assert all[..|all| - 1] == run + more[..|more| - 1];
      FreshRun(run, more[..|more| - 1], key, m);
      StepKeepsFresh(Reach(all[..|all| - 1]), all[|all| - 1], key, m);
    }
  }

  lemma NoStaleHit(s: State, h: Answer, key: string, m: nat)
    requires m > 0 && FreshSince(s, key, m) && s.log[m - 1] == Erase(key)
    ensures !Stale(s.log, h, key, m)
  {
    forall i: nat | h.Hit? && h.key == key && m <= h.seen && Explains(s.log, i, h)
      ensures s.log[i].began >= m
    {
      assert StoreIsFresh(s.log[i], key, m);
    }
  }

  lemma {:induction false} BeganInThePast(run: seq<Timed>, c: Client)
    requires Legal(run)
    ensures !PhaseOf(Reach(run), c).Idle? ==> PhaseOf(Reach(run), c).began <= |Reach(run).log|
  {
    if run != [] {
      BeganInThePast(run[..|run| - 1], c);
    }
  }

  lemma Extend(run: seq<Timed>, t: Timed)
    requires Legal(run) && Enabled(Reach(run), t.action)
    ensures Legal(run + [t]) && Reach(run + [t]) == Next(Reach(run), t)
  {
    assert (run + [t])[..|run|] == run;
  }

  /** A value waiting to be stored is stored, and the next look-up hits it. */
  lemma WaitingValueIsHit(run: seq<Timed>, c: Client, now: int) returns (more: seq<Timed>, h: Answer)
    requires Legal(run) && PhaseOf(Reach(run), c).Storing?
    requires PhaseOf(Reach(run), c).value.Some? && PhaseOf(Reach(run), c).ttl > 0
    ensures |more| == 2 && more[0].at == more[1].at == now && Legal(run + more)
    ensures h in Reach(run + more).answers && h.Hit?
    ensures var p, log := PhaseOf(Reach(run), c), Reach(run + more).log;
            && h.key == p.key && h.seen == |Reach(run).log| + 1
            && Explains(log, h.seen - 1, h) && log[h.seen - 1].began == p.began
  {
    var s, p := Reach(run), PhaseOf(Reach(run), c);
    var keep, look := Timed(Keep(c), now), Timed(Look(c, p.key, 1), now);
    Extend(run, keep);
    var kept := Next(s, keep);
    Extend(run + [keep], look);
    more := [keep, look];
    h := Hit(c, p.key, p.value.value, now, |kept.log|);
    assert run + more == run + [keep] + [look];
    assert Next(kept, look).answers == kept.answers + [h];
  }

  /** A fill in flight across the delete can finish, store, and be hit afterwards. */
  lemma OldFillReturns(run: seq<Timed>, key: string, c: Client)
    requires Legal(run) && Monotone(run) && EndsInDelete(run, key)
    requires InFlight(PhaseOf(Reach(run), c), key)
    ensures !DeleteIsFinal(run, key)
  {
    hide Next, Legal, Reach, Explains;
    BeganBeforeDelete(run, key, c);
    var now, s := Clock(run), Reach(run);
    if PhaseOf(s, c).Filling? {
      var t := FillFinishes(run, c, now);
      var tail, h := WaitingValueIsHit(run + [t], c, now);
      assert run + ([t] + tail) == run + [t] + tail;
      StaleHitBreaksDelete(run, key, [t] + tail, h);
    } else {
      var more, h := WaitingValueIsHit(run, c, now);
      StaleHitBreaksDelete(run, key, more, h);
    }
  }

  /** A running factory can return, and its value then waits to be stored. */
  lemma FillFinishes(run: seq<Timed>, c: Client, now: int) returns (t: Timed)
    requires Legal(run) && PhaseOf(Reach(run), c).Filling?
    ensures t == Timed(Finish(c, Some(0)), now) && Legal(run + [t])
    ensures var p := PhaseOf(Reach(run), c);
            PhaseOf(Reach(run + [t]), c) == Storing(p.key, p.ttl, Some(0), p.began)
    ensures Reach(run + [t]).log == Reach(run).log
  {
    t := Timed(Finish(c, Some(0)), now);
    Extend(run, t);
  }

  lemma StaleHitBreaksDelete(run: seq<Timed>, key: string, more: seq<Timed>, h: Answer)
    requires Legal(run) && Monotone(run) && run != [] && Legal(run + more)
    requires forall i :: 0 <= i < |more| ==> more[i].at == Clock(run)
    requires h in Reach(run + more).answers && h.Hit? && h.key == key
    requires |Reach(run).log| < h.seen && Explains(Reach(run + more).log, h.seen - 1, h)
    requires Reach(run + more).log[h.seen - 1].began < |Reach(run).log|
    ensures !DeleteIsFinal(run, key)
  {
    assert Monotone(run + more);
    assert Stale(Reach(run + more).log, h, key, |Reach(run).log|);
  }

  lemma BeganBeforeDelete(run: seq<Timed>, key: string, c: Client)
    requires Legal(run) && EndsInDelete(run, key)
    ensures !PhaseOf(Reach(run), c).Idle? ==> PhaseOf(Reach(run), c).began < |Reach(run).log|
  {
    BeganInThePast(run[..|run| - 1], c);
  }

  /** `delete` keeps every later hit from returning something older than itself if, and only
      if, no fill for the key was in flight when it ran. */
  lemma DeleteIsFinalExactlyWhenNothingInFlight(run: seq<Timed>, key: string)
    requires Legal(run) && Monotone(run) && EndsInDelete(run, key)
    ensures DeleteIsFinal(run, key) <==> NoFillInFlight(Reach(run), key)
  {
    var s, m := Reach(run), |Reach(run).log|;
    if NoFillInFlight(s, key) {
      assert FreshSince(s, key, m);
      forall more, h | Legal(run + more) && Monotone(run + more) && h in Reach(run + more).answers
        ensures !Stale(Reach(run + more).log, h, key, m)
      {
        FreshRun(run, more, key, m);
        NoStaleHit(Reach(run + more), h, key, m);
      }
    } else {
      var c :| InFlight(PhaseOf(s, c), key);
      OldFillReturns(run, key, c);
    }
  }
}
