/** When an event is dropped from the fallback storage to make room: meant to happen only while the list is full. */
module Evictions {
  import opened Configuration
  import opened Broker
  import opened Forwarder
  import opened StorageLimit
  import opened StorageRuns

  /** What left the queue from `before` to `after` was published. */
  ghost predicate NothingEvicted(before: Queue, after: Queue) {
    && before.departed <= after.departed
    && forall i :: |before.departed| <= i < |after.departed| ==> after.departed[i].Published?
  }

  lemma NothingEvictedTwice(a: Queue, b: Queue, c: Queue)
    requires a.departed <= b.departed <= c.departed
    ensures NothingEvicted(a, c) <==> NothingEvicted(a, b) && NothingEvicted(b, c)
  {
    if NothingEvicted(a, c) {
      assert forall i :: |a.departed| <= i < |b.departed| ==> b.departed[i] == c.departed[i];
    }
  }

  lemma {:induction false} DepartedGrows(q: Queue, limit: nat, traffic: seq<Traffic>)
    ensures q.departed <= PerformAll(q, limit, traffic).departed
    decreases |traffic|
  {
    if traffic != [] {
      DepartedGrows(Perform(q, limit, traffic[0]), limit, traffic[1..]);
    }
  }

  lemma StepEvictsIff(q: Queue, limit: nat, t: Traffic)
    ensures q.departed <= Perform(q, limit, t).departed
    ensures NothingEvicted(q, Perform(q, limit, t))
       <==> !(t.Arrive? && limit > 0 && q.length >= limit && q.list != [])
  {
    if t.Arrive? && limit > 0 && q.length >= limit && q.list != [] {
      assert Perform(q, limit, t).departed[|q.departed|].Evicted?;
    }
  }

  // ---- Dropping from a full list only ----

  /** Every event that is dropped is dropped from a list that has reached the limit. */
  ghost predicate OnlyFullEvicts(q: Queue, limit: nat, traffic: seq<Traffic>)
    decreases |traffic|
  {
    traffic == [] ||
    var next := Perform(q, limit, traffic[0]);
    (NothingEvicted(q, next) || |q.list| >= limit) && OnlyFullEvicts(next, limit, traffic[1..])
  }

  /** A replay of the traffic by numbers. `size` is the length of the list, and `over` the number of events shipped less
      the length when it was last read. A list that believes itself full holds its length, and below the limit it grows.
      Once more events were shipped than there were, each arriving event replaces another: only then is an event lost
      that there was room for, and only if the list is neither empty nor full. */
  predicate NoneLostEarly(size: nat, over: int, limit: nat, traffic: seq<Traffic>)
    decreases |traffic|
  {
    traffic == [] ||
    match traffic[0]
    case Arrive(_) =>
      if over > 0 then !(0 < size < limit) && NoneLostEarly(if size == 0 then 1 else size, over, limit, traffic[1..])
      else NoneLostEarly(if -over >= limit then size else size + 1, over, limit, traffic[1..])
    case Ship =>
      if size == 0 then NoneLostEarly(0, over, limit, traffic[1..])
      else NoneLostEarly(size - 1, over + 1, limit, traffic[1..])
  }

  /** The believed length of a queue that shipped `over` events more than it had when the length was read. */
  predicate Believes(q: Queue, over: int) {
    over < WORD && -over < WORD && q.length == if over <= 0 then -over else WORD - over
  }

  lemma {:induction false} OnlyFullEvictsIff(q: Queue, limit: nat, traffic: seq<Traffic>, over: int)
    requires 0 < limit < WORD - |traffic| && Believes(q, over) && over < WORD - |traffic| - limit
    requires -over >= limit ==> |q.list| == -over
    ensures OnlyFullEvicts(q, limit, traffic) <==> NoneLostEarly(|q.list|, over, limit, traffic)
    decreases |traffic|
  {
    if traffic != [] {
      var next := Perform(q, limit, traffic[0]);
      StepEvictsIff(q, limit, traffic[0]);
      OnlyFullEvictsIff(next, limit, traffic[1..], if traffic[0].Ship? && q.list != [] then over + 1 else over);
    }
  }

  // ---- Dropping nothing ----

  /** A replay that tells when something is dropped from a list that starts below the limit: when an event arrives while
      others are stored and the believed length, having wrapped, is still within `m` of the word size. */
  predicate NeverCut(size: nat, over: int, m: nat, traffic: seq<Traffic>)
    decreases |traffic|
  {
    traffic == [] ||
    match traffic[0]
    case Arrive(_) => !(1 <= over <= m && size > 0) && NeverCut(size + 1, over, m, traffic[1..])
    case Ship =>
      if size == 0 then NeverCut(0, over, m, traffic[1..]) else NeverCut(size - 1, over + 1, m, traffic[1..])
  }

  lemma {:induction false} LimitlessEvictsNothing(q: Queue, traffic: seq<Traffic>)
    ensures NothingEvicted(q, PerformAll(q, 0, traffic))
    decreases |traffic|
  {
    if traffic != [] {
      var next := Perform(q, 0, traffic[0]);
      LimitlessEvictsNothing(next, traffic[1..]);
      NothingEvictedTwice(q, next, PerformAll(q, 0, traffic));
    }
  }

  lemma {:induction false} NothingEvictedIff(q: Queue, limit: nat, traffic: seq<Traffic>, over: int)
    requires 0 < limit <= WORD && Believes(q, over) && -over < limit && over < WORD - |traffic|
    ensures var after := PerformAll(q, limit, traffic);
      var uncut := NeverCut(|q.list|, over, WORD - limit, traffic);
      && (NothingEvicted(q, after) <==> uncut)
      && (uncut ==> after == PerformAll(q, 0, traffic))
    decreases |traffic|
  {
    if traffic != [] {
      var next := Perform(q, limit, traffic[0]);
      DepartedGrows(next, limit, traffic[1..]);
      NothingEvictedTwice(q, next, PerformAll(q, limit, traffic));
      StepEvictsIff(q, limit, traffic[0]);
      if NothingEvicted(q, next) {
        assert next == Perform(q, 0, traffic[0]);
        NothingEvictedIff(next, limit, traffic[1..], if traffic[0].Ship? && q.list != [] then over + 1 else over);
      }
    }
  }

  lemma EvictsNothingIff(q: Queue, limit: nat, traffic: seq<Traffic>)
    requires q.length == |q.list| < limit < WORD && |traffic| < WORD
    ensures var after := PerformAll(q, limit, traffic);
      var uncut := NeverCut(|q.list|, -|q.list|, WORD - limit, traffic);
      && (NothingEvicted(q, after) <==> uncut)
      && (after == PerformAll(q, 0, traffic) <==> uncut)
  {
    NothingEvictedIff(q, limit, traffic, -|q.list|);
    LimitlessEvictsNothing(q, traffic);
  }

  // ---- Over a run ----

  lemma {:induction false} ShipsEvictNothing(q: Queue, limit: nat, n: nat, rest: seq<Traffic>)
    ensures var after := PerformAll(q, limit, Ships(n));
      && NothingEvicted(q, after)
      && (OnlyFullEvicts(q, limit, Ships(n) + rest) <==> OnlyFullEvicts(after, limit, rest))
    decreases n
  {
    if n == 0 {
      assert Ships(0) + rest == rest;
    } else {
      var next := Perform(q, limit, Ship);
      StepEvictsIff(q, limit, Ship);
      DepartedGrows(next, limit, Ships(n - 1));
      ShipsEvictNothing(next, limit, n - 1, rest);
      assert Ships(n)[1..] == Ships(n - 1) && (Ships(n) + rest)[1..] == Ships(n - 1) + rest;
      NothingEvictedTwice(q, next, PerformAll(q, limit, Ships(n)));
    }
  }

  /** An event of the module drops at most one stored event, and that at its beginning. */
  lemma EventEvicts(q: Queue, after: Queue, limit: nat, rest: seq<Traffic>)
    requires after == PerformAll(q, limit, TrafficBetween(q, after))
    ensures OnlyFullEvicts(q, limit, TrafficBetween(q, after) + rest)
       <==> (NothingEvicted(q, after) || |q.list| >= limit) && OnlyFullEvicts(after, limit, rest)
  {
    var traffic := TrafficBetween(q, after);
    if |traffic| == 0 {
      assert traffic + rest == rest;
    } else if traffic[0].Ship? {
      ShipsEvictNothing(q, limit, |traffic|, rest);
    } else {
      assert (traffic + rest)[1..] == rest && traffic[1..] == [];
    }
  }

  ghost predicate RunOnlyFullEvicts(w: World, s: State, events: seq<Event>)
    decreases |events|
  {
    events == [] ||
    var next := Step(w, s, events[0]);
    (NothingEvicted(s.queue, next.queue) || |s.queue.list| >= s.config.storageLimit) &&
    RunOnlyFullEvicts(w, next, events[1..])
  }

  lemma {:induction false} RunOnlyFullIsTraffic(w: World, s: State, events: seq<Event>)
    requires forall i :: 0 <= i < |events| ==> !Resizes(w.strtol, events[i])
    ensures RunOnlyFullEvicts(w, s, events)
       <==> OnlyFullEvicts(s.queue, s.config.storageLimit, RunTraffic(w, s, events))
    decreases |events|
  {
    if events != [] {
      var next := Step(w, s, events[0]);
      StepTraffic(w, s, events[0]);
      RunOnlyFullIsTraffic(w, next, events[1..]);
      EventEvicts(s.queue, next.queue, s.config.storageLimit, RunTraffic(w, next, events[1..]));
    }
  }

  /** Event `p` of a run drops a stored event only if the list has reached the limit. */
  ghost predicate EvictsFullOnly(w: World, s: State, events: seq<Event>, p: nat)
    requires p < |events|
  {
    var before := Run(w, s, events[..p]);
    NothingEvicted(before.queue, Step(w, before, events[p]).queue) || |before.queue.list| >= before.config.storageLimit
  }

  lemma {:induction false} RunOnlyFullMeansAlways(w: World, s: State, events: seq<Event>)
    ensures RunOnlyFullEvicts(w, s, events)
       <==> forall p :: 0 <= p < |events| ==> EvictsFullOnly(w, s, events, p)
    decreases |events|
  {
    if events != [] {
      var next, rest := Step(w, s, events[0]), events[1..];
      RunOnlyFullMeansAlways(w, next, rest);
      assert events[..0] == [];
      assert EvictsFullOnly(w, s, events, 0)
        <==> NothingEvicted(s.queue, next.queue) || |s.queue.list| >= s.config.storageLimit;
      forall p | 0 <= p < |rest|
        ensures EvictsFullOnly(w, s, events, p + 1) <==> EvictsFullOnly(w, next, rest, p)
      {
        assert events[..p + 1][1..] == rest[..p];
      }
      if forall p :: 0 <= p < |events| ==> EvictsFullOnly(w, s, events, p) {
        forall p | 0 <= p < |rest|
          ensures EvictsFullOnly(w, next, rest, p)
        {
          assert EvictsFullOnly(w, s, events, p + 1);
        }
      } else {
        var p :| 0 <= p < |events| && !EvictsFullOnly(w, s, events, p);
        if p > 0 {
          assert !EvictsFullOnly(w, next, rest, p - 1);
        }
      }
    }
  }

  /** Making room was meant for a full list. From a state with a positive limit and a right believed length to the next
      change of the size, events are dropped from a full list only exactly if the replay of the traffic loses none
      early. */
  lemma RunLosesNoneEarlyIff(w: World, start: State, events: seq<Event>)
    requires start.queue.length == |start.queue.list| < WORD
    requires 0 < start.config.storageLimit < WORD - |RunTraffic(w, start, events)|
    requires forall i :: 0 <= i < |events| ==> !Resizes(w.strtol, events[i])
    ensures (forall p :: 0 <= p < |events| ==> EvictsFullOnly(w, start, events, p))
       <==> NoneLostEarly(|start.queue.list|, -|start.queue.list|, start.config.storageLimit,
                          RunTraffic(w, start, events))
  {
    RunOnlyFullMeansAlways(w, start, events);
    RunOnlyFullIsTraffic(w, start, events);
    OnlyFullEvictsIff(start.queue, start.config.storageLimit, RunTraffic(w, start, events), -|start.queue.list|);
  }

  /** From a list below its limit to the next change of the size, nothing at all is dropped, and the queue is the one
      without a limit, exactly if the replay of the traffic is never cut. */
  lemma RunEvictsNothingIff(w: World, start: State, events: seq<Event>)
    requires start.queue.length == |start.queue.list| < start.config.storageLimit < WORD
    requires |RunTraffic(w, start, events)| < WORD
    requires forall i :: 0 <= i < |events| ==> !Resizes(w.strtol, events[i])
    ensures var after, size, traffic := Run(w, start, events).queue, |start.queue.list|, RunTraffic(w, start, events);
      var uncut := NeverCut(size, -size, WORD - start.config.storageLimit, traffic);
      && (NothingEvicted(start.queue, after) <==> uncut)
      && (after == PerformAll(start.queue, 0, traffic) <==> uncut)
  {
    RunIsTraffic(w, start, events);
    EvictsNothingIff(start.queue, start.config.storageLimit, RunTraffic(w, start, events));
  }

  lemma FirstThenRest(q: Queue, limit: nat, t: Traffic, rest: seq<Traffic>)
    ensures PerformAll(q, limit, [t] + rest) == PerformAll(Perform(q, limit, t), limit, rest)
    ensures OnlyFullEvicts(q, limit, [t] + rest)
       <==> (NothingEvicted(q, Perform(q, limit, t)) || |q.list| >= limit)
            && OnlyFullEvicts(Perform(q, limit, t), limit, rest)
  {
    assert ([t] + rest)[0] == t && ([t] + rest)[1..] == rest;
  }

  /** For example, under any limit of two or more: after one event is stored and shipped, the second of the next two
      drops the first. */
  lemma OneShippedOneLost(q: Queue, limit: nat, a: string, b: string, c: string)
    requires q.list == [] && 2 <= limit < WORD
    ensures var traffic := [Arrive(a), Ship, Arrive(b), Arrive(c)];
      PerformAll(Sync(q), limit, traffic).list == [c] && !OnlyFullEvicts(Sync(q), limit, traffic)
  {
    var one := Perform(Sync(q), limit, Arrive(a));
    var two := Perform(one, limit, Ship);
    var three := Perform(two, limit, Arrive(b));
    assert one.length == 0 && two.length == WORD - 1 && two.list == [];
    assert three.length == WORD - 1 && three.list == [b];
    StepEvictsIff(three, limit, Arrive(c));
    FirstThenRest(three, limit, Arrive(c), []);
    FirstThenRest(two, limit, Arrive(b), [Arrive(c)]);
    FirstThenRest(one, limit, Ship, [Arrive(b), Arrive(c)]);
    FirstThenRest(Sync(q), limit, Arrive(a), [Ship, Arrive(b), Arrive(c)]);
    assert [Arrive(c)] + [] == [Arrive(c)] && [Arrive(b)] + [Arrive(c)] == [Arrive(b), Arrive(c)];
    assert [Ship] + [Arrive(b), Arrive(c)] == [Ship, Arrive(b), Arrive(c)];
    assert [Arrive(a)] + [Ship, Arrive(b), Arrive(c)] == [Arrive(a), Ship, Arrive(b), Arrive(c)];
  }
}
