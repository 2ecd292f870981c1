/** The size limit of the fallback storage: what the written code does, exactly when that is what was
    promised, and the same operations with the missing increment put back. */
module StorageLimit {
  import opened Configuration
  import opened Broker
  import opened Forwarder
  import opened RunInduction
  import opened Extrema

  // ---- The believed length as written ----

  /** The believed length trails the real one by the events stored into free space since it was last
      read from the list, modulo the word size. */
  ghost predicate Trails(sent: seq<Sent>, q: Queue, arrivals: seq<string>) {
    q.length == (|q.list| - q.growth) % WORD
  }

  lemma DecrementWraps(n: int)
    ensures (n % WORD + WORD - 1) % WORD == (n - 1) % WORD
  {
  }

  lemma ShippingTrails(sent: seq<Sent>, q: Queue, arrivals: seq<string>)
    requires Trails(sent, q, arrivals) && q.list != []
    ensures Trails(sent + [Backlog(q.list[0])], Shipped(q), arrivals)
  {
    DecrementWraps(|q.list| - q.growth);
  }

  lemma StoringTrails(sent: seq<Sent>, q: Queue, arrivals: seq<string>, limit: nat, body: string)
    requires Trails(sent, q, arrivals)
    ensures Trails(sent, Store(q, limit, body), arrivals + [body])
  {
    assert |Store(q, limit, body).list| - Store(q, limit, body).growth == |q.list| - q.growth;
  }

  lemma TrailsIsStable()
    ensures Stable(Trails)
  {
    forall sent, q: Queue, arrivals | Trails(sent, q, arrivals) && q.list != []
      ensures Trails(sent + [Backlog(q.list[0])], Shipped(q), arrivals)
    {
      ShippingTrails(sent, q, arrivals);
    }
    forall sent, q: Queue, arrivals, limit: nat, body | Trails(sent, q, arrivals)
      ensures Trails(sent, Store(q, limit, body), arrivals + [body])
    {
      StoringTrails(sent, q, arrivals, limit, body);
    }
  }

  lemma TrailingIsExactWithoutGrowth(length: nat, size: nat, growth: nat)
    requires length == (size - growth) % WORD && size < WORD
    ensures length == size <==> growth % WORD == 0
  {
  }

  /** In every reachable state the believed length is right exactly when no event was stored into free
      space since it was last read (or a whole word's worth of them). */
  lemma BelievedLengthIsExactWithoutGrowth(w: World, argv: seq<string>, stored: seq<string>, events: seq<Event>)
    requires Loaded(w, argv, stored).1
    ensures var q := Run(w, Loaded(w, argv, stored).0, events).queue;
            && q.length == (|q.list| - q.growth) % WORD
            && (|q.list| < WORD ==> (q.length == |q.list| <==> q.growth % WORD == 0))
  {
    var s := Loaded(w, argv, stored).0;
    TrailsOverRun(w, s, events);
    var q := Run(w, s, events).queue;
    if |q.list| < WORD {
      TrailingIsExactWithoutGrowth(q.length, |q.list|, q.growth);
    }
  }

  lemma TrailsOverRun(w: World, s: State, events: seq<Event>)
    requires Holds(Trails, s)
    ensures Holds(Trails, Run(w, s, events))
  {
    TrailsIsStable();
    RunKeeps(Trails, w, s, events);
  }

  // ---- An outage: events are stored one after the other ----

  function StoreAll(q: Queue, limit: nat, bodies: seq<string>): Queue
    decreases |bodies|
  {
    if bodies == [] then q else StoreAll(Store(q, limit, bodies[0]), limit, bodies[1..])
  }

  /** During an outage the list grows by one an event, or not at all beyond one event: the believed
      length decides at the start and never changes. */
  lemma {:induction false} OutageLength(q: Queue, limit: nat, bodies: seq<string>)
    ensures |StoreAll(q, limit, bodies).list|
         == if limit > 0 && q.length >= limit
            then (if bodies != [] && q.list == [] then 1 else |q.list|)
            else |q.list| + |bodies|
    ensures StoreAll(q, limit, bodies).length == q.length
    decreases |bodies|
  {
    if bodies != [] {
      OutageLength(Store(q, limit, bodies[0]), limit, bodies[1..]);
    }
  }

  /** With a positive limit the list was meant not to grow beyond the larger of the limit and its
      length when the limit was set. Right after the length was read, an outage keeps to that exactly
      if the list is already full, or the outage is short enough not to fill it. */
  lemma OutageKeepsLimitIff(q: Queue, limit: nat, bodies: seq<string>)
    requires limit > 0 && |q.list| < WORD
    ensures |StoreAll(Sync(q), limit, bodies).list| <= Max(limit, |q.list|)
       <==> |q.list| >= limit || |q.list| + |bodies| <= limit
  {
    OutageLength(Sync(q), limit, bodies);
  }

  /** A limit of one, set on an empty list: the second event makes the list too long. */
  lemma LimitOneHoldsTwo(q: Queue, a: string, b: string)
    requires q.list == []
    ensures StoreAll(Sync(q), 1, [a, b]).list == [a, b]
  {
    assert [a, b][1..] == [b];
    assert StoreAll(Store(Sync(q), 1, a), 1, [b]) == Store(Store(Sync(q), 1, a), 1, b);
  }

  /** The last events of an outage. */
  lemma {:induction false} OutageKeepsNewest(q: Queue, limit: nat, bodies: seq<string>)
    requires limit > 0 && q.length >= limit && |q.list| <= 1 && bodies != []
    ensures StoreAll(q, limit, bodies).list == [bodies[|bodies| - 1]]
    decreases |bodies|
  {
    var next := Store(q, limit, bodies[0]);
    if |bodies| > 1 {
      OutageKeepsNewest(next, limit, bodies[1..]);
    } else {
      assert bodies[1..] == [];
    }
  }

  /** After a complete drain the believed length has wrapped below zero if anything had been stored into
      free space, so the next outage keeps nothing but its newest event. */
  lemma StorageCollapsesAfterDrain(script: Script, link: Link, q: Queue, limit: nat, bodies: seq<string>)
    requires Trails(link.sent, q, []) && 0 < q.growth < WORD && 0 < limit <= WORD - q.growth
    requires Drain(script, link, q).2 && bodies != []
    ensures StoreAll(Drain(script, link, q).1, limit, bodies).list == [bodies[|bodies| - 1]]
  {
    var drained := Drain(script, link, q).1;
    DrainTrails(script, link, q);
    assert drained.length == (0 - q.growth) % WORD == WORD - q.growth;
    OutageKeepsNewest(drained, limit, bodies);
  }

  lemma {:induction false} DrainTrails(script: Script, link: Link, q: Queue)
    requires Trails(link.sent, q, [])
    ensures var (after, rest, ok) := Drain(script, link, q);
            && Trails(after.sent, rest, []) && rest.growth == q.growth && (ok ==> rest.list == [])
    decreases |q.list|
  {
    if q.list != [] {
      var (next, ok) := Publish(script, link, Backlog(q.list[0]));
      if ok {
        ShippingTrails(link.sent, q, []);
        DrainTrails(script, next, Shipped(q));
      }
    }
  }

  // ---- Events arrive and are shipped in any order ----

  datatype Traffic = Arrive(body: string) | Ship

  /** Storing and shipping as written. */
  function Perform(q: Queue, limit: nat, t: Traffic): Queue {
    match t
    case Arrive(body) => Store(q, limit, body)
    case Ship => if q.list == [] then q else Shipped(q)
  }

  function PerformAll(q: Queue, limit: nat, traffic: seq<Traffic>): Queue
    decreases |traffic|
  {
    if traffic == [] then q else PerformAll(Perform(q, limit, traffic[0]), limit, traffic[1..])
  }

  /** The list is never longer than `bound`. */
  predicate Within(q: Queue, limit: nat, traffic: seq<Traffic>, bound: nat)
    decreases |traffic|
  {
    |q.list| <= bound && (traffic == [] || Within(Perform(q, limit, traffic[0]), limit, traffic[1..], bound))
  }

  /** A queue of `size` events that never evicts any is not longer than `bound` until it has shipped more than
      `ships` of them. */
  predicate FitsUntilShipped(size: nat, ships: nat, traffic: seq<Traffic>, bound: nat)
    decreases |traffic|
  {
    size <= bound &&
    (traffic == [] ||
     match traffic[0]
     case Arrive(_) => FitsUntilShipped(size + 1, ships, traffic[1..], bound)
     case Ship =>
       if size == 0 then FitsUntilShipped(0, ships, traffic[1..], bound)
       else ships == 0 || FitsUntilShipped(size - 1, ships - 1, traffic[1..], bound))
  }

  /** What keeps the limit after its size was read: a full queue holds its length until it is shipped down below
      the limit; from then on nothing is evicted until as many events were shipped as it had left. */
  predicate TrafficFits(size: nat, limit: nat, traffic: seq<Traffic>, bound: nat)
    decreases |traffic|
  {
    if size < limit then FitsUntilShipped(size, size, traffic, bound)
    else
      traffic == [] ||
      match traffic[0]
      case Arrive(_) => TrafficFits(size, limit, traffic[1..], bound)
      case Ship => size == 0 || TrafficFits(size - 1, limit, traffic[1..], bound)
  }

  /** Once the believed length has wrapped, every event evicts another. */
  lemma {:induction false} WrappedStaysWithin(q: Queue, limit: nat, traffic: seq<Traffic>, bound: nat)
    requires limit > 0 && limit + |traffic| <= q.length < WORD && |q.list| <= bound && bound > 0
    ensures Within(q, limit, traffic, bound)
    decreases |traffic|
  {
    if traffic != [] {
      WrappedStaysWithin(Perform(q, limit, traffic[0]), limit, traffic[1..], bound);
    }
  }

  /** Below the limit: the list stays within `bound` exactly if a queue that never evicts does so until more events
      were shipped than the believed length. */
  lemma {:induction false} BelowLimitIff(q: Queue, limit: nat, traffic: seq<Traffic>, bound: nat)
    requires q.length < limit <= bound && limit + |traffic| < WORD
    ensures Within(q, limit, traffic, bound) <==> FitsUntilShipped(|q.list|, q.length, traffic, bound)
    decreases |traffic|
  {
    if traffic != [] && |q.list| <= bound {
      var next := Perform(q, limit, traffic[0]);
      if traffic[0].Ship? && q.list != [] && q.length == 0 {
        assert next.length == WORD - 1;
        WrappedStaysWithin(next, limit, traffic[1..], bound);
      } else {
        BelowLimitIff(next, limit, traffic[1..], bound);
      }
    }
  }

  lemma {:induction false} SyncedWithinIff(q: Queue, limit: nat, traffic: seq<Traffic>, bound: nat)
    requires 0 < limit <= bound && limit + |traffic| < WORD && q.length == |q.list| < WORD && |q.list| <= bound
    ensures Within(q, limit, traffic, bound) <==> TrafficFits(|q.list|, limit, traffic, bound)
    decreases |traffic|
  {
    if q.length < limit {
      BelowLimitIff(q, limit, traffic, bound);
    } else if traffic != [] {
      SyncedWithinIff(Perform(q, limit, traffic[0]), limit, traffic[1..], bound);
    }
  }

  lemma {:induction false} WithinMeansAlways(q: Queue, limit: nat, traffic: seq<Traffic>, bound: nat)
    ensures Within(q, limit, traffic, bound)
       <==> forall p :: 0 <= p <= |traffic| ==> |PerformAll(q, limit, traffic[..p]).list| <= bound
    decreases |traffic|
  {
    if traffic == [] {
      assert traffic[..0] == [];
    } else {
      var next, rest := Perform(q, limit, traffic[0]), traffic[1..];
      WithinMeansAlways(next, limit, rest, bound);
      assert traffic[..0] == [];
      forall p | 0 <= p <= |rest|
        ensures PerformAll(q, limit, traffic[..p + 1]) == PerformAll(next, limit, rest[..p])
      {
        assert traffic[..p + 1][1..] == rest[..p];
      }
      if forall p :: 0 <= p <= |traffic| ==> |PerformAll(q, limit, traffic[..p]).list| <= bound {
        forall p | 0 <= p <= |rest|
          ensures |PerformAll(next, limit, rest[..p]).list| <= bound
        {
          assert |PerformAll(q, limit, traffic[..p + 1]).list| <= bound;
        }
      } else {
        var p :| 0 <= p <= |traffic| && |PerformAll(q, limit, traffic[..p]).list| > bound;
        if p > 0 {
          assert |PerformAll(next, limit, rest[..p - 1]).list| > bound;
        }
      }
    }
  }

  /** With a positive limit the list was meant never to exceed the larger of the limit and its length when the
      limit was set. From then on, whatever arrives and is shipped, it does not exactly if the traffic fits. */
  lemma LimitIsKeptIff(q: Queue, limit: nat, traffic: seq<Traffic>)
    requires limit > 0 && limit + |traffic| < WORD && |q.list| < WORD
    ensures (forall p :: 0 <= p <= |traffic| ==>
              |PerformAll(Sync(q), limit, traffic[..p]).list| <= Max(limit, |q.list|))
       <==> TrafficFits(|q.list|, limit, traffic, Max(limit, |q.list|))
  {
    WithinMeansAlways(Sync(q), limit, traffic, Max(limit, |q.list|));
    SyncedWithinIff(Sync(q), limit, traffic, Max(limit, |q.list|));
  }

  // ---- With the increment ----

  /** Storing as it was meant: the believed length counts an event stored into free space. */
  function StoreCounted(q: Queue, limit: nat, body: string): Queue {
    if limit > 0 && q.length >= limit && q.list != [] then Store(q, limit, body)
    else Store(q, 0, body).(length := q.length + 1, growth := 0)
  }

  datatype QueueOp = Flow(traffic: Traffic) | Resize(limit: nat)

  /** The queue, its limit, and the larger of the limit and the length at the last size change. */
  datatype Bounded = Bounded(q: Queue, limit: nat, bound: nat)

  function Apply(b: Bounded, op: QueueOp): Bounded {
    match op
    case Flow(Arrive(body)) => b.(q := StoreCounted(b.q, b.limit, body))
    case Flow(Ship) => if b.q.list == [] then b else b.(q := Shipped(b.q))
    case Resize(limit) => Bounded(Sync(b.q), limit, Max(limit, |b.q.list|))
  }

  function ApplyAll(b: Bounded, ops: seq<QueueOp>): Bounded
    decreases |ops|
  {
    if ops == [] then b else ApplyAll(Apply(b, ops[0]), ops[1..])
  }

  ghost predicate Counted(b: Bounded) {
    b.q.length == |b.q.list| && b.limit <= b.bound && (b.limit > 0 ==> |b.q.list| <= b.bound)
  }

  /** With the increment, arrivals, publications and size changes in any order keep the believed length
      right and the list within its bound. */
  lemma {:induction false} CountingKeepsLimit(b: Bounded, ops: seq<QueueOp>)
    requires Counted(b) && |b.q.list| + |ops| < WORD
    ensures Counted(ApplyAll(b, ops))
    decreases |ops|
  {
    if ops != [] {
      var next := Apply(b, ops[0]);
      assert Counted(next) && |next.q.list| <= |b.q.list| + 1;
      CountingKeepsLimit(next, ops[1..]);
    }
  }
}
