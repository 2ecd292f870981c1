/** A negative size of the fallback storage: meant to switch it off, written as a limit close to the word size. */
module NegativeSizes {
  import opened Configuration
  import opened Broker
  import opened Forwarder
  import opened StorageLimit
  import opened StorageRuns
  import opened Evictions
  import EventMessage

  /** The state a negative size leaves: the limit is huge, and the believed length right. */
  lemma NegativeSizeIsHuge(w: World, s: State, argv: seq<string>)
    requires |argv| == 2 && -0x8000_0000_0000_0000 <= w.strtol(argv[1]) < 0 && |s.queue.list| < WORD
    ensures var start := Execute(w, s, StorageSizeCmd, argv);
      && start.config.storageLimit == w.strtol(argv[1]) + WORD >= 0x8000_0000_0000_0000
      && start.queue.length == |start.queue.list| && start.queue.list == s.queue.list
  {
    CommandEffect(w, s, StorageSizeCmd, argv);
  }

  // ---- What is stored ----

  /** A size of -m behaves as no limit, and drops nothing, exactly as long as no event arrives while others are stored
      and between 1 and m more were shipped than the list had when the size was set. */
  lemma NegativeSizeIsNoLimitIff(w: World, start: State, events: seq<Event>, m: nat)
    requires 0 < m <= 0x8000_0000_0000_0000 && start.config.storageLimit == WORD - m
    requires start.queue.length == |start.queue.list| < 0x8000_0000_0000_0000
    requires |RunTraffic(w, start, events)| < WORD
    requires forall i :: 0 <= i < |events| ==> !Resizes(w.strtol, events[i])
    ensures var after, size, traffic := Run(w, start, events).queue, |start.queue.list|, RunTraffic(w, start, events);
      && (NothingEvicted(start.queue, after) <==> NeverCut(size, -size, m, traffic))
      && (after == PerformAll(start.queue, 0, traffic) <==> NeverCut(size, -size, m, traffic))
  {
    RunEvictsNothingIff(w, start, events);
  }

  /** For example, a size of -1 stores all the events of an outage. */
  lemma MinusOneStoresEverything(w: World, s: State, bodies: seq<string>)
    requires w.strtol("-1") == -1 && |s.queue.list| < WORD - 1
    ensures var start := Execute(w, s, StorageSizeCmd, [Name(StorageSizeCmd), "-1"]);
      start.config.storageLimit == WORD - 1 &&
      StoreAll(start.queue, WORD - 1, bodies).list == s.queue.list + bodies
  {
    StoresAll(Sync(s.queue), WORD - 1, bodies);
  }

  lemma {:induction false} StoresAll(q: Queue, limit: nat, bodies: seq<string>)
    requires q.length < limit
    ensures StoreAll(q, limit, bodies).list == q.list + bodies
    decreases |bodies|
  {
    if bodies != [] {
      StoresAll(Store(q, limit, bodies[0]), limit, bodies[1..]);
      assert bodies == [bodies[0]] + bodies[1..];
    }
  }

  /** And it drops an event after one was stored and shipped. */
  lemma MinusOneDropsOne(w: World, s: State, a: string, b: string, c: string)
    requires w.strtol("-1") == -1 && s.queue.list == []
    ensures var start := Execute(w, s, StorageSizeCmd, [Name(StorageSizeCmd), "-1"]);
      var traffic := [Arrive(a), Ship, Arrive(b), Arrive(c)];
      PerformAll(start.queue, start.config.storageLimit, traffic).list == [c]
  {
    OneShippedOneLost(s.queue, WORD - 1, a, b, c);
  }

  // ---- When nothing is stored ----

  /** The broker would accept a message now. */
  predicate Accepts(script: Script, link: Link) {
    link.conn != NoConn && script(link.calls).framesOk && script(link.calls + 1).publishOk
  }

  /** The event passes the masks of an enabled master. */
  ghost predicate IsForwarded(s: State, e: Event) {
    e.Keyspace? && e.master && s.timers.enabled && AnyAdmits(s.config.masks, e.key)
  }

  /** Whenever an event is to be forwarded, the broker accepts it. */
  ghost predicate AcceptsAll(w: World, s: State, events: seq<Event>)
    decreases |events|
  {
    events == [] ||
    (&& (IsForwarded(s, events[0]) ==> Accepts(w.script, ArmLazily(w.script, s.link, s.timers).0))
     && AcceptsAll(w, Step(w, s, events[0]), events[1..]))
  }

  lemma PublishSucceedsIff(script: Script, link: Link, m: Sent)
    ensures Publish(script, link, m).1 <==> Accepts(script, link)
  {
  }

  lemma PushedGrows(w: World, s: State, e: Event)
    ensures |s.queue.pushed| <= |Step(w, s, e).queue.pushed|
  {
    if Resizes(w.strtol, e) {
      ResizeSyncs(w, s, e);
    } else {
      StepTraffic(w, s, e);
      PushedGrowsWith(s.queue, s.config.storageLimit, TrafficBetween(s.queue, Step(w, s, e).queue));
    }
  }

  lemma {:induction false} PushedGrowsWith(q: Queue, limit: nat, traffic: seq<Traffic>)
    ensures |q.pushed| <= |PerformAll(q, limit, traffic).pushed|
    decreases |traffic|
  {
    if traffic != [] {
      PushedGrowsWith(Perform(q, limit, traffic[0]), limit, traffic[1..]);
    }
  }

  /** From an empty list, an event stores something exactly if it is to be forwarded and the broker does not take it. */
  lemma StepStoresIff(w: World, s: State, e: Event)
    requires s.queue.list == []
    ensures var after := Step(w, s, e).queue;
      if IsForwarded(s, e) && !Accepts(w.script, ArmLazily(w.script, s.link, s.timers).0)
      then after.list != [] && |after.pushed| > |s.queue.pushed|
      else after.list == [] && after.pushed == s.queue.pushed
  {
    if e.Keyspace? {
      if IsForwarded(s, e) {
        var link := ArmLazily(w.script, s.link, s.timers).0;
        PublishSucceedsIff(w.script, link, Direct(EventMessage.Body(e.db, e.event, e.key)));
      }
    } else if Resizes(w.strtol, e) {
      ResizeSyncs(w, s, e);
    } else if !e.Timer? {
      StepKeepsQueue(w, s, e);
    }
  }

  lemma {:induction false} RunStaysEmptyIff(w: World, s: State, events: seq<Event>)
    ensures RunWithin(w, s, events, 0) <==> s.queue.list == [] && AcceptsAll(w, s, events)
    decreases |events|
  {
    if events != [] && s.queue.list == [] {
      var next := Step(w, s, events[0]);
      StepStoresIff(w, s, events[0]);
      RunStaysEmptyIff(w, next, events[1..]);
    }
  }

  /** A negative size keeps its promise, that nothing is stored, exactly if nothing was stored before and the broker
      accepts every event that is to be forwarded, at once. Any other size does as well. */
  lemma NothingIsStoredIff(w: World, start: State, events: seq<Event>)
    ensures (forall p :: 0 <= p <= |events| ==> Run(w, start, events[..p]).queue.list == [])
       <==> start.queue.list == [] && AcceptsAll(w, start, events)
  {
    RunStaysEmptyIff(w, start, events);
    RunWithinMeansAlways(w, start, events, 0);
    forall p | 0 <= p <= |events|
      ensures |Run(w, start, events[..p]).queue.list| <= 0 <==> Run(w, start, events[..p]).queue.list == []
    {
    }
  }
}
