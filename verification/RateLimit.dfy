/** `InMemoryRateLimiter` (app/rate_limit.py): a sliding window over one queue of timestamps
    per key. Every timestamp the window has passed is thrown away; the lemmas show that the
    decisions are nevertheless those of a limiter that remembers everything. Clock readings
    are reals; `asyncio.Lock` makes each check atomic. */
module RateLimit {
  import opened Common

  /** `NoOldest` is the IndexError of reading the oldest entry of an empty queue. */
  datatype Decision =
    | Allowed(remaining: int)
    | Denied(retryAfter: int)
    | NoOldest

  datatype Call = Call(key: string, limit: int, window: int, now: real)

  type Buckets = map<string, seq<real>>

  /** `int(x)`: truncation toward zero. */
  function Trunc(x: real): int {
    if x >= 0.0 then x.Floor else -((-x).Floor)
  }

  /** The queue without the leading entries at or before the cutoff. */
  function Prune(bucket: seq<real>, cutoff: real): seq<real> {
    if bucket != [] && bucket[0] <= cutoff then Prune(bucket[1..], cutoff) else bucket
  }

  function Bucket(buckets: Buckets, key: string): seq<real> {
    if key in buckets then buckets[key] else []
  }

  function Decide(kept: seq<real>, c: Call): Decision {
    if |kept| < c.limit then Allowed(Max(0, c.limit - (|kept| + 1)))
    else if kept == [] then NoOldest
    else Denied(Max(1, Trunc(c.window as real - (c.now - kept[0]))))
  }

  /** State and answer after one check. */
  function Step(buckets: Buckets, c: Call): (Buckets, Decision) {
    var kept := Prune(Bucket(buckets, c.key), c.now - c.window as real);
    var d := Decide(kept, c);
    (buckets[c.key := if d.Allowed? then kept + [c.now] else kept], d)
  }

  class InMemoryRateLimiter {
    var buckets: Buckets

    constructor ()
      ensures buckets == map[]
    {
      buckets := map[];
    }

    method Check(key: string, limit: int, window: int, now: real) returns (d: Decision)
      modifies this
      ensures buckets == Step(old(buckets), Call(key, limit, window, now)).0
      ensures d == Step(old(buckets), Call(key, limit, window, now)).1
      ensures forall other :: other != key ==> Bucket(buckets, other) == Bucket(old(buckets), other)
    {
      var bucket := Bucket(buckets, key);
      ghost var whole := bucket;
      var cutoff := now - window as real;
      while bucket != [] && bucket[0] <= cutoff
        invariant Prune(bucket, cutoff) == Prune(whole, cutoff)
        decreases |bucket|
      {
        bucket := bucket[1..];
      }
      buckets := buckets[key := bucket];
      if |bucket| >= limit {
        if bucket == [] {
          return NoOldest;
        }
        return Denied(Max(1, Trunc(window as real - (now - bucket[0]))));
      }
      bucket := bucket + [now];
      buckets := buckets[key := bucket];
      d := Allowed(Max(0, limit - |bucket|));
    }
  }

  // ------------------------------------------------------------ runs

  function After(calls: seq<Call>): Buckets {
    if calls == [] then map[] else Step(After(calls[..|calls| - 1]), calls[|calls| - 1]).0
  }

  /** The answer to the last of these calls. */
  function Answer(calls: seq<Call>): Decision
    requires calls != []
  {
    Step(After(calls[..|calls| - 1]), calls[|calls| - 1]).1
  }

  /** The times at which `key` was let through: nothing is ever forgotten here. */
  ghost function Granted(calls: seq<Call>, key: string): seq<real> {
    if calls == [] then []
    else
      var last := calls[|calls| - 1];
      Granted(calls[..|calls| - 1], key)
      + (if last.key == key && Answer(calls).Allowed? then [last.now] else [])
  }

  /** How many of these times lie in (from, to]. */
  ghost function CountIn(times: seq<real>, from: real, to: real): nat {
    if times == [] then 0
    else CountIn(times[..|times| - 1], from, to) + (if from < times[|times| - 1] <= to then 1 else 0)
  }

  /** The clock never runs backwards. */
  ghost predicate Monotone(calls: seq<Call>) {
    forall i, j :: 0 <= i < j < |calls| ==> calls[i].now <= calls[j].now
  }

  /** Calls for `key` all use this window. */
  ghost predicate FixedWindow(calls: seq<Call>, key: string, window: int) {
    forall i :: 0 <= i < |calls| && calls[i].key == key ==> calls[i].window == window
  }

  ghost predicate FixedLimit(calls: seq<Call>, key: string, limit: int) {
    forall i :: 0 <= i < |calls| && calls[i].key == key ==> calls[i].limit == limit
  }

  ghost predicate Sorted(times: seq<real>) {
    forall i, j :: 0 <= i < j < |times| ==> times[i] <= times[j]
  }

  // ------------------------------------------------------------ pruning forgets nothing that counts

  lemma {:induction false} PruneIsSuffix(times: seq<real>, cutoff: real)
    ensures |Prune(times, cutoff)| <= |times|
    ensures Prune(times, cutoff) == times[|times| - |Prune(times, cutoff)|..]
    ensures forall i :: 0 <= i < |times| - |Prune(times, cutoff)| ==> times[i] <= cutoff
    ensures Prune(times, cutoff) != [] ==> Prune(times, cutoff)[0] > cutoff
  {
    if times != [] && times[0] <= cutoff {
      PruneIsSuffix(times[1..], cutoff);
    }
  }

  /** Pruning twice is pruning once at the later cutoff. */
  lemma {:induction false} PruneTwice(times: seq<real>, early: real, late: real)
    requires early <= late
    ensures Prune(Prune(times, early), late) == Prune(times, late)
  {
    if times != [] && times[0] <= early {
      PruneTwice(times[1..], early, late);
    }
  }

  lemma {:induction false} PruneAppend(times: seq<real>, x: real, cutoff: real)
    ensures Prune(times + [x], cutoff) ==
            if Prune(times, cutoff) == [] then Prune([x], cutoff) else Prune(times, cutoff) + [x]
  {
    if times == [] {
      assert times + [x] == [x];
    } else {
      assert (times + [x])[1..] == times[1..] + [x];
      if times[0] <= cutoff {
        PruneAppend(times[1..], x, cutoff);
      }
    }
  }

  lemma {:induction false} CountAll(times: seq<real>, from: real, to: real)
    requires forall i :: 0 <= i < |times| ==> from < times[i] <= to
    ensures CountIn(times, from, to) == |times|
  {
    if times != [] {
      CountAll(times[..|times| - 1], from, to);
    }
  }

  lemma {:induction false} CountNone(times: seq<real>, from: real, to: real)
    requires forall i :: 0 <= i < |times| ==> times[i] <= from
    ensures CountIn(times, from, to) == 0
  {
    if times != [] {
      CountNone(times[..|times| - 1], from, to);
    }
  }

  lemma {:induction false} CountAppend(a: seq<real>, b: seq<real>, from: real, to: real)
    ensures CountIn(a + b, from, to) == CountIn(a, from, to) + CountIn(b, from, to)
  {
    if b == [] {
      assert a + b == a;
    } else {
      assert (a + b)[..|a + b| - 1] == a + b[..|b| - 1];
      CountAppend(a, b[..|b| - 1], from, to);
    }
  }

  /** What is left of a sorted queue after pruning is what lies in the window. */
  lemma {:induction false} PrunedCount(times: seq<real>, cutoff: real, now: real)
    requires Sorted(times) && forall i :: 0 <= i < |times| ==> times[i] <= now
    ensures |Prune(times, cutoff)| == CountIn(times, cutoff, now)
  {
    if times == [] {
    } else if times[0] <= cutoff {
      PrunedCount(times[1..], cutoff, now);
      CountAppend([times[0]], times[1..], cutoff, now);
      CountNone([times[0]], cutoff, now);
      assert [times[0]] + times[1..] == times;
    } else {
      CountAll(times, cutoff, now);
    }
  }

  lemma {:induction false} GrantedIsSorted(calls: seq<Call>, key: string)
    requires Monotone(calls)
    ensures Sorted(Granted(calls, key))
    ensures forall i :: 0 <= i < |Granted(calls, key)| ==> Granted(calls, key)[i] <= calls[|calls| - 1].now
  {
    if calls != [] {
      GrantedIsSorted(calls[..|calls| - 1], key);
    }
  }

  lemma StepOnQueue(buckets: Buckets, c: Call, key: string)
    ensures var queue := Bucket(buckets, key);
            var kept := Prune(queue, c.now - c.window as real);
            if c.key != key then Bucket(Step(buckets, c).0, key) == queue
            else
              && Step(buckets, c).1 == Decide(kept, c)
              && Bucket(Step(buckets, c).0, key) == if Step(buckets, c).1.Allowed? then kept + [c.now] else kept
  {
  }

  lemma LastCall(calls: seq<Call>, key: string)
    requires calls != []
    ensures var last, queue := calls[|calls| - 1], Bucket(After(calls[..|calls| - 1]), key);
            var kept := Prune(queue, last.now - last.window as real);
            if last.key != key then Bucket(After(calls), key) == queue
            else
              && Answer(calls) == Decide(kept, last)
              && Bucket(After(calls), key) == if Answer(calls).Allowed? then kept + [last.now] else kept
  {
    StepOnQueue(After(calls[..|calls| - 1]), calls[|calls| - 1], key);
  }

  lemma SameAfterStep(queue: seq<real>, history: seq<real>, now: real, horizon: real, cutoff: real)
    requires horizon <= cutoff && Prune(queue, cutoff) == Prune(history, cutoff)
    ensures Prune(Prune(queue, horizon), cutoff) == Prune(history, cutoff)
    ensures Prune(Prune(queue, horizon) + [now], cutoff) == Prune(history + [now], cutoff)
  {
    PruneTwice(queue, horizon, cutoff);
    PruneAppend(Prune(queue, horizon), now, cutoff);
    PruneAppend(history, now, cutoff);
  }

  lemma EmptyHistory(key: string)
    ensures Bucket(After([]), key) == Granted([], key)
  {
  }

  /** Pruned at any cutoff still to come, the queue and the full history are the same. */
  lemma {:induction false} QueueIsPrunedHistory(calls: seq<Call>, key: string, window: int, cutoff: real)
    requires Monotone(calls) && FixedWindow(calls, key, window)
    requires calls != [] ==> calls[|calls| - 1].now - window as real <= cutoff
    ensures Prune(Bucket(After(calls), key), cutoff) == Prune(Granted(calls, key), cutoff)
  {
    hide After, Prune, Answer;
    if calls == [] {
      EmptyHistory(key);
    } else {
      var before, last := calls[..|calls| - 1], calls[|calls| - 1];
      QueueIsPrunedHistory(before, key, window, cutoff);
      LastCall(calls, key);
      if last.key == key {
        var queue, history := Bucket(After(before), key), Granted(before, key);
        SameAfterStep(queue, history, last.now, last.now - window as real, cutoff);
        assert Granted(calls, key) == if Answer(calls).Allowed? then history + [last.now] else history;
      } else {
        assert Granted(calls, key) == Granted(before, key);
      }
    }
  }

  // ------------------------------------------------------------ main results

  /** Every answer is the one that the full, never-pruned history gives, and it lets a call
      through exactly when fewer than `limit` were let through in the window before it. */
  lemma AnswersMatchFullHistory(calls: seq<Call>)
    requires calls != [] && Monotone(calls)
    requires FixedWindow(calls, calls[|calls| - 1].key, calls[|calls| - 1].window)
    ensures var last := calls[|calls| - 1];
            var history := Granted(calls[..|calls| - 1], last.key);
            var start := last.now - last.window as real;
            && Answer(calls) == Decide(Prune(history, start), last)
            && (Answer(calls).Allowed? <==> CountIn(history, start, last.now) < last.limit)
            && (Answer(calls).NoOldest? <==> last.limit <= 0 && CountIn(history, start, last.now) == 0)
  {
    hide Prune, CountIn;
    var before, last := calls[..|calls| - 1], calls[|calls| - 1];
    var start := last.now - last.window as real;
    LastCall(calls, last.key);
    QueueIsPrunedHistory(before, last.key, last.window, start);
    GrantedIsSorted(before, last.key);
    PrunedCount(Granted(before, last.key), start, last.now);
  }

  lemma {:induction false} CountShrinks(times: seq<real>, from: real, later: real, to: real, upto: real)
    requires from <= later
    requires forall i :: 0 <= i < |times| ==> times[i] <= to
    ensures CountIn(times, later, upto) <= CountIn(times, from, to)
  {
    if times != [] {
      CountShrinks(times[..|times| - 1], from, later, to, upto);
    }
  }

  /** What an allowed call is told: how many more there is room for in the window. */
  lemma RemainingExactly(calls: seq<Call>)
    requires calls != [] && Monotone(calls) && Answer(calls).Allowed?
    requires FixedWindow(calls, calls[|calls| - 1].key, calls[|calls| - 1].window)
    ensures var last := calls[|calls| - 1];
            Answer(calls).remaining
              == last.limit - CountIn(Granted(calls[..|calls| - 1], last.key),
                                      last.now - last.window as real, last.now) - 1
  {
    hide Prune, CountIn, After, Answer;
    var before, last := calls[..|calls| - 1], calls[|calls| - 1];
    var start := last.now - last.window as real;
    AnswersMatchFullHistory(calls);
    GrantedIsSorted(before, last.key);
    EarlierCalls(calls);
    PrunedCount(Granted(before, last.key), start, last.now);
  }

  lemma EarlierCalls(calls: seq<Call>)
    requires calls != [] && Monotone(calls)
    ensures Monotone(calls[..|calls| - 1])
    ensures calls[..|calls| - 1] != [] ==> calls[..|calls| - 1][|calls| - 2].now <= calls[|calls| - 1].now
  {
  }

  lemma RoomForOneMore(calls: seq<Call>, t: real)
    requires calls != [] && Monotone(calls) && Answer(calls).Allowed?
    requires FixedWindow(calls, calls[|calls| - 1].key, calls[|calls| - 1].window)
    requires calls[|calls| - 1].now <= t
    ensures var last := calls[|calls| - 1];
            CountIn(Granted(calls[..|calls| - 1], last.key), t - last.window as real, t) < last.limit
  {
    var before, last := calls[..|calls| - 1], calls[|calls| - 1];
    hide Prune, CountIn, Granted, After;
    AnswersMatchFullHistory(calls);
    GrantedIsSorted(before, last.key);
    CountShrinks(Granted(before, last.key), last.now - last.window as real, t - last.window as real, last.now, t);
  }

  /** Over any run, no interval (t - window, t] holds more than `limit` allowed calls. */
  lemma {:induction false} NeverMoreThanLimit(calls: seq<Call>, key: string, window: int, limit: int, t: real)
    requires Monotone(calls) && FixedWindow(calls, key, window) && FixedLimit(calls, key, limit)
    ensures CountIn(Granted(calls, key), t - window as real, t) <= Max(0, limit)
  {
    if calls != [] {
      hide Prune, CountIn, Answer, After;
      var before, last := calls[..|calls| - 1], calls[|calls| - 1];
      NeverMoreThanLimit(before, key, window, limit, t);
      var history := Granted(before, key);
      if last.key == key && Answer(calls).Allowed? {
        assert Granted(calls, key) == history + [last.now];
        CountAppend(history, [last.now], t - window as real, t);
        CountOne(last.now, t - window as real, t);
        if last.now <= t {
          RoomForOneMore(calls, t);
        }
      } else {
        assert Granted(calls, key) == history;
      }
    }
  }

  lemma CountOne(x: real, from: real, to: real)
    ensures CountIn([x], from, to) == if from < x <= to then 1 else 0
  {
    assert [x][..0] == [];
  }

  // ------------------------------------------------------------ retry-after

  /** Checks on other keys, however many, leave a queue as it was. */
  lemma {:induction false} OtherKeysDoNotMatter(calls: seq<Call>, between: seq<Call>, key: string)
    requires forall i :: 0 <= i < |between| ==> between[i].key != key
    ensures Bucket(After(calls + between), key) == Bucket(After(calls), key)
  {
    if between == [] {
      assert calls + between == calls;
    } else {
      var front := between[..|between| - 1];
      assert (calls + between)[..|calls + between| - 1] == calls + front;
      OtherKeysDoNotMatter(calls, front, key);
    }
  }

  lemma {:induction false} QueueIsBounded(calls: seq<Call>, key: string, limit: int)
    requires FixedLimit(calls, key, limit)
    ensures |Bucket(After(calls), key)| <= Max(0, limit)
  {
    if calls != [] {
      var before, last := calls[..|calls| - 1], calls[|calls| - 1];
      QueueIsBounded(before, key, limit);
      PruneIsSuffix(Bucket(After(before), key), last.now - last.window as real);
    }
  }

  /** The oldest entry still counted when the last call was answered. */
  ghost function Oldest(calls: seq<Call>): real
    requires calls != [] && Answer(calls).Denied?
  {
    var last := calls[|calls| - 1];
    Prune(Bucket(After(calls[..|calls| - 1]), last.key), last.now - last.window as real)[0]
  }

  lemma RetryOnQueue(queue: seq<real>, c: Call, t: real)
    requires |queue| <= Max(0, c.limit) && c.limit >= 1
    requires Decide(Prune(queue, c.now - c.window as real), c).Denied?
    ensures var kept := Prune(queue, c.now - c.window as real);
            && kept != []
            && (Decide(Prune(kept, t - c.window as real), c.(now := t)).Allowed? <==> kept[0] + c.window as real <= t)
  {
    hide Trunc, Prune;
    var kept, cutoff := Prune(queue, c.now - c.window as real), t - c.window as real;
    PruneIsSuffix(queue, c.now - c.window as real);
    assert kept != [] && |kept| == c.limit;
    PruneIsSuffix(kept, cutoff);
    PruneDrops(kept, cutoff);
  }

  lemma PruneDrops(times: seq<real>, cutoff: real)
    requires times != []
    ensures |Prune(times, cutoff)| < |times| <==> times[0] <= cutoff
  {
    PruneIsSuffix(times[1..], cutoff);
  }

  /** After a denial, a retry with nothing else on the key in between is let through exactly
      when the oldest entry has left the window by then. */
  lemma RetryAfterDenial(calls: seq<Call>, between: seq<Call>, t: real)
    requires calls != [] && Answer(calls).Denied?
    requires var last := calls[|calls| - 1]; last.limit >= 1 && FixedLimit(calls, last.key, last.limit)
    requires forall i :: 0 <= i < |between| ==> between[i].key != calls[|calls| - 1].key
    requires calls[|calls| - 1].now <= t
    ensures var last := calls[|calls| - 1];
            Answer(calls + between + [last.(now := t)]).Allowed? <==> Oldest(calls) + last.window as real <= t
  {
    hide After, Prune, Decide, Answer;
    var before, last := calls[..|calls| - 1], calls[|calls| - 1];
    var all := calls + between + [last.(now := t)];
    assert all[..|all| - 1] == calls + between;
    OtherKeysDoNotMatter(calls, between, last.key);
    QueueIsBounded(before, last.key, last.limit);
    LastCall(calls, last.key);
    LastCall(all, last.key);
    RetryOnQueue(Bucket(After(before), last.key), last, t);
  }

  /** Waiting one second more than `Retry-After` always suffices. */
  lemma WaitingOneMoreSuffices(calls: seq<Call>, between: seq<Call>, t: real)
    requires calls != [] && Answer(calls).Denied?
    requires var last := calls[|calls| - 1]; last.limit >= 1 && FixedLimit(calls, last.key, last.limit)
    requires forall i :: 0 <= i < |between| ==> between[i].key != calls[|calls| - 1].key
    requires calls[|calls| - 1].now + (Answer(calls).retryAfter + 1) as real <= t
    ensures Answer(calls + between + [calls[|calls| - 1].(now := t)]).Allowed?
  {
    RetryAfterDenial(calls, between, t);
  }

  /** Waiting exactly `Retry-After` suffices when, and only when, the time left was a whole
      number of seconds or at most one: otherwise the header has rounded it down. */
  lemma WaitingExactly(calls: seq<Call>, between: seq<Call>)
    requires calls != [] && Answer(calls).Denied?
    requires var last := calls[|calls| - 1]; last.limit >= 1 && FixedLimit(calls, last.key, last.limit)
    requires forall i :: 0 <= i < |between| ==> between[i].key != calls[|calls| - 1].key
    ensures var last := calls[|calls| - 1];
            var left := last.window as real - (last.now - Oldest(calls));
            var t := last.now + Answer(calls).retryAfter as real;
            Answer(calls + between + [last.(now := t)]).Allowed? <==> left <= 1.0 || left == left.Floor as real
  {
    hide After, Prune;
    var last := calls[|calls| - 1];
    var queue := Bucket(After(calls[..|calls| - 1]), last.key);
    PruneIsSuffix(queue, last.now - last.window as real);
    RetryAfterDenial(calls, between, last.now + Answer(calls).retryAfter as real);
  }
}
