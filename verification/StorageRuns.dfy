/** The size limit over whole runs of the module: between two commands that set the limit, a run is some traffic
    of arriving and shipped events. */
module StorageRuns {
  import opened Configuration
  import opened Broker
  import opened Forwarder
  import opened StorageLimit
  import opened Extrema
  import ArgumentCodec
  import EventMessage

  // ---- What resizes ----

  /** A command that is accepted and reads the length of the list again. */
  predicate CommandResizes(strtol: Numeral, kind: Kind, argv: seq<string>) {
    match kind
    case ConnectCmd => !BadMode(strtol, Rest(argv))
    case ConfigCmd => !BadMode(strtol, Rest(argv))
    case StorageSizeCmd => |argv| == 2
    case _ => false
  }

  predicate Resizes(strtol: Numeral, e: Event) {
    match e
    case Command(kind, argv) => CommandResizes(strtol, kind, argv)
    case Message(kind, payload) =>
      var argv := ArgumentCodec.Split(payload);
      kind == COMMAND_MESSAGE && argv != [] && Dispatch(argv[0]) != [] &&
      CommandResizes(strtol, Dispatch(argv[0])[0], argv)
    case _ => false
  }

  lemma CommandEffect(w: World, s: State, kind: Kind, argv: seq<string>)
    ensures var after := Execute(w, s, kind, argv);
      if CommandResizes(w.strtol, kind, argv) then after.queue == Sync(s.queue)
      else after.queue == s.queue && after.config.storageLimit == s.config.storageLimit
  {
    if kind == ConnectCmd || kind == ConfigCmd {
      var args := Rest(argv);
      var start := if |args| > 9 then s.config.(masks := []) else s.config;
      if BadMode(w.strtol, args) {
        FieldsLeaveMasks(w.strtol, start, args, 7);
      }
    }
  }

  /** After an event that resizes, the believed length is the real one. */
  lemma ResizeSyncs(w: World, s: State, e: Event)
    requires Resizes(w.strtol, e)
    ensures Step(w, s, e).queue == Sync(s.queue)
    ensures |s.queue.list| < WORD ==> Step(w, s, e).queue.length == |Step(w, s, e).queue.list|
  {
    match e
    case Command(kind, argv) => CommandEffect(w, s, kind, argv);
    case Message(kind, payload) =>
      var argv := ArgumentCodec.Split(payload);
      CommandEffect(w, s, Dispatch(argv[0])[0], argv);
  }

  /** A command or message that does not resize leaves the queue alone. */
  lemma StepKeepsQueue(w: World, s: State, e: Event)
    requires !Resizes(w.strtol, e) && !e.Keyspace? && !e.Timer?
    ensures Step(w, s, e).queue == s.queue
  {
    match e
    case Command(kind, argv) => CommandEffect(w, s, kind, argv);
    case Message(kind, payload) =>
      var argv := ArgumentCodec.Split(payload);
      if kind == COMMAND_MESSAGE && argv != [] && Dispatch(argv[0]) != [] {
        CommandEffect(w, s, Dispatch(argv[0])[0], argv);
      }
  }

  // ---- The traffic of a run ----

  function Ships(n: nat): seq<Traffic> {
    seq(n, i => Ship)
  }

  /** What one event did to the queue: it stored a body, or it shipped some of the head. */
  function TrafficBetween(before: Queue, after: Queue): seq<Traffic> {
    if |after.pushed| > |before.pushed| then [Arrive(after.pushed[|after.pushed| - 1])]
    else if |after.list| < |before.list| then Ships(|before.list| - |after.list|)
    else []
  }

  ghost function RunTraffic(w: World, s: State, events: seq<Event>): seq<Traffic>
    decreases |events|
  {
    if events == [] then []
    else
      var next := Step(w, s, events[0]);
      TrafficBetween(s.queue, next.queue) + RunTraffic(w, next, events[1..])
  }

  lemma {:induction false} DrainShips(script: Script, link: Link, q: Queue, limit: nat)
    ensures var rest := Drain(script, link, q).1;
      && rest.pushed == q.pushed && |rest.list| <= |q.list|
      && rest == PerformAll(q, limit, Ships(|q.list| - |rest.list|))
    decreases |q.list|
  {
    var rest := Drain(script, link, q).1;
    if q.list != [] {
      var (next, ok) := Publish(script, link, Backlog(q.list[0]));
      if ok {
        DrainShips(script, next, Shipped(q), limit);
        var n := |q.list| - |rest.list|;
        assert Ships(n)[1..] == Ships(n - 1);
      }
    }
  }

  lemma KeyspaceTraffic(w: World, s: State, master: bool, db: int, event: string, key: string)
    ensures var after, limit := OnKeyspaceEvent(w, s, master, db, event, key), s.config.storageLimit;
      after.config == s.config && after.queue == PerformAll(s.queue, limit, TrafficBetween(s.queue, after.queue))
  {
    var limit := s.config.storageLimit;
    if master && s.timers.enabled && AnyAdmits(s.config.masks, key) {
      var link := ArmLazily(w.script, s.link, s.timers).0;
      var body := EventMessage.Body(db, event, key);
      PublishTraffic(w.script, link, s.queue, limit, body);
    }
  }

  lemma PublishTraffic(script: Script, link: Link, q: Queue, limit: nat, body: string)
    ensures var after := PublishEvent(script, link, q, limit, body).1;
      after == PerformAll(q, limit, TrafficBetween(q, after))
  {
    var after := PublishEvent(script, link, q, limit, body).1;
    if link.conn != NoConn && Publish(script, link, Direct(body)).1 {
      DrainShips(script, Publish(script, link, Direct(body)).0, q, limit);
    } else {
      assert after == Store(q, limit, body) && after.pushed[|after.pushed| - 1] == body;
      assert PerformAll(q, limit, [Arrive(body)]) == PerformAll(after, limit, [Arrive(body)][1..]);
    }
  }

  lemma TimerTraffic(w: World, s: State, id: nat)
    ensures var after, limit := TimerFires(w, s, id), s.config.storageLimit;
      after.config == s.config && after.queue == PerformAll(s.queue, limit, TrafficBetween(s.queue, after.queue))
  {
    if id in s.timers.pending && s.timers.enabled {
      ReconnectTraffic(w.script, s.link, s.queue, s.config.storageLimit);
      var waited := WaitFrame(w.script, s.link).0;
      ReconnectTraffic(w.script, Disconnect(waited).0, s.queue, s.config.storageLimit);
    }
  }

  lemma ReconnectTraffic(script: Script, link: Link, q: Queue, limit: nat)
    ensures var after := Reconnect(script, link, q).1;
      after == PerformAll(q, limit, TrafficBetween(q, after))
  {
    DrainShips(script, Connect(script, link).0, q, limit);
  }

  /** An event that does not resize leaves the limit alone and changes the queue by its traffic. */
  lemma StepTraffic(w: World, s: State, e: Event)
    requires !Resizes(w.strtol, e)
    ensures var after, limit := Step(w, s, e), s.config.storageLimit;
      && after.config.storageLimit == limit
      && after.queue == PerformAll(s.queue, limit, TrafficBetween(s.queue, after.queue))
  {
    match e
    case Keyspace(master, db, event, key) => KeyspaceTraffic(w, s, master, db, event, key);
    case Timer(id) => TimerTraffic(w, s, id);
    case Command(kind, argv) => CommandEffect(w, s, kind, argv);
    case Message(kind, payload) =>
      var argv := ArgumentCodec.Split(payload);
      if kind == COMMAND_MESSAGE && argv != [] && Dispatch(argv[0]) != [] {
        CommandEffect(w, s, Dispatch(argv[0])[0], argv);
      }
  }

  lemma {:induction false} PerformAppend(q: Queue, limit: nat, a: seq<Traffic>, b: seq<Traffic>)
    ensures PerformAll(q, limit, a + b) == PerformAll(PerformAll(q, limit, a), limit, b)
    decreases |a|
  {
    if a == [] {
      assert a + b == b;
    } else {
      PerformAppend(Perform(q, limit, a[0]), limit, a[1..], b);
      assert (a + b)[1..] == a[1..] + b;
    }
  }

  /** Until the next command that resizes, the queue is what the traffic of the run makes of it. */
  lemma {:induction false} RunIsTraffic(w: World, s: State, events: seq<Event>)
    requires forall i :: 0 <= i < |events| ==> !Resizes(w.strtol, events[i])
    ensures var after, limit := Run(w, s, events), s.config.storageLimit;
      && after.config.storageLimit == limit
      && after.queue == PerformAll(s.queue, limit, RunTraffic(w, s, events))
    decreases |events|
  {
    if events != [] {
      var next := Step(w, s, events[0]);
      StepTraffic(w, s, events[0]);
      RunIsTraffic(w, next, events[1..]);
      PerformAppend(s.queue, s.config.storageLimit, TrafficBetween(s.queue, next.queue),
                    RunTraffic(w, next, events[1..]));
    }
  }

  // ---- The limit over a run ----

  lemma {:induction false} ShipsStayWithin(q: Queue, limit: nat, n: nat, rest: seq<Traffic>, bound: nat)
    ensures Within(q, limit, Ships(n) + rest, bound)
       <==> |q.list| <= bound && Within(PerformAll(q, limit, Ships(n)), limit, rest, bound)
    decreases n
  {
    if n == 0 {
      assert Ships(0) + rest == rest;
    } else {
      ShipsStayWithin(Perform(q, limit, Ship), limit, n - 1, rest, bound);
      assert Ships(n)[1..] == Ships(n - 1) && (Ships(n) + rest)[1..] == Ships(n - 1) + rest;
    }
  }

  /** During one event the list is longest at its beginning or its end. */
  lemma EventStaysWithin(q: Queue, after: Queue, limit: nat, rest: seq<Traffic>, bound: nat)
    requires after == PerformAll(q, limit, TrafficBetween(q, after))
    ensures Within(q, limit, TrafficBetween(q, after) + rest, bound)
       <==> |q.list| <= bound && Within(after, limit, rest, bound)
  {
    var traffic := TrafficBetween(q, after);
    if |traffic| == 0 {
      assert traffic + rest == rest;
    } else if traffic[0].Ship? {
      ShipsStayWithin(q, limit, |traffic|, rest, bound);
    } else {
      assert (traffic + rest)[1..] == rest && traffic[1..] == [];
    }
  }

  ghost predicate RunWithin(w: World, s: State, events: seq<Event>, bound: nat)
    decreases |events|
  {
    |s.queue.list| <= bound && (events == [] || RunWithin(w, Step(w, s, events[0]), events[1..], bound))
  }

  lemma {:induction false} RunWithinIff(w: World, s: State, events: seq<Event>, bound: nat)
    requires forall i :: 0 <= i < |events| ==> !Resizes(w.strtol, events[i])
    ensures RunWithin(w, s, events, bound)
       <==> Within(s.queue, s.config.storageLimit, RunTraffic(w, s, events), bound)
    decreases |events|
  {
    if events != [] {
      var next := Step(w, s, events[0]);
      StepTraffic(w, s, events[0]);
      RunWithinIff(w, next, events[1..], bound);
      EventStaysWithin(s.queue, next.queue, s.config.storageLimit, RunTraffic(w, next, events[1..]), bound);
    }
  }

  lemma {:induction false} RunWithinMeansAlways(w: World, s: State, events: seq<Event>, bound: nat)
    ensures RunWithin(w, s, events, bound)
       <==> forall p :: 0 <= p <= |events| ==> |Run(w, s, events[..p]).queue.list| <= bound
    decreases |events|
  {
    assert events[..0] == [];
    if events != [] {
      var next, rest := Step(w, s, events[0]), events[1..];
      RunWithinMeansAlways(w, next, rest, bound);
      forall p | 0 <= p <= |rest|
        ensures Run(w, s, events[..p + 1]) == Run(w, next, rest[..p])
      {
        assert events[..p + 1][1..] == rest[..p];
      }
      if forall p :: 0 <= p <= |events| ==> |Run(w, s, events[..p]).queue.list| <= bound {
        forall p | 0 <= p <= |rest|
          ensures |Run(w, next, rest[..p]).queue.list| <= bound
        {
          assert |Run(w, s, events[..p + 1]).queue.list| <= bound;
        }
      } else {
        var p :| 0 <= p <= |events| && |Run(w, s, events[..p]).queue.list| > bound;
        if p > 0 {
          assert |Run(w, next, rest[..p - 1]).queue.list| > bound;
        }
      }
    }
  }

  /** From a state with a positive limit and a right believed length, as every event that resizes leaves it, to the
      next such event, the list never exceeds the larger of the limit and its length at the start exactly if the
      traffic of the run fits. */
  lemma RunKeepsLimitIff(w: World, start: State, events: seq<Event>)
    requires start.queue.length == |start.queue.list| < WORD
    requires 0 < start.config.storageLimit < WORD - |RunTraffic(w, start, events)|
    requires forall i :: 0 <= i < |events| ==> !Resizes(w.strtol, events[i])
    ensures var size, limit := |start.queue.list|, start.config.storageLimit;
      (forall p :: 0 <= p <= |events| ==> |Run(w, start, events[..p]).queue.list| <= Max(limit, size))
      <==> TrafficFits(size, limit, RunTraffic(w, start, events), Max(limit, size))
  {
    var size, limit := |start.queue.list|, start.config.storageLimit;
    RunWithinMeansAlways(w, start, events, Max(limit, size));
    RunWithinIff(w, start, events, Max(limit, size));
    SyncedWithinIff(start.queue, limit, RunTraffic(w, start, events), Max(limit, size));
  }
}
