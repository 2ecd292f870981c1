/** The fallback storage with the missing increment put back, over runs of the module. */
module CountedStorage {
  import opened Configuration
  import opened Broker
  import opened Forwarder
  import opened StorageLimit
  import opened StorageRuns
  import opened Evictions
  import opened Extrema
  import EventMessage

  // ---- The steps with the increment ----

  /** `publishEvent`, storing with `StoreCounted`. */
  function PublishEventCounted(script: Script, link: Link, q: Queue, limit: nat, body: string): (Link, Queue) {
    if link.conn == NoConn then (link, StoreCounted(q, limit, body))
    else
      var (next, ok) := Publish(script, link, Direct(body));
      if ok then
        var (after, drained, _) := Drain(script, next, q);
        (after, drained)
      else (next, StoreCounted(q, limit, body))
  }

  ghost function KeyspaceCounted(w: World, s: State, master: bool, db: int, event: string, key: string): State {
    if !(master && s.timers.enabled) then s
    else
      var (link, timers) := ArmLazily(w.script, s.link, s.timers);
      if !AnyAdmits(s.config.masks, key) then s.(link := link, timers := timers)
      else
        var body := EventMessage.Body(db, event, key);
        var (after, queue) := PublishEventCounted(w.script, link, s.queue, s.config.storageLimit, body);
        s.(link := after, queue := queue, timers := timers, arrivals := s.arrivals + [body])
  }

  ghost function StepCounted(w: World, s: State, e: Event): State {
    match e
    case Keyspace(master, db, event, key) => KeyspaceCounted(w, s, master, db, event, key)
    case _ => Step(w, s, e)
  }

  ghost function RunCounted(w: World, s: State, events: seq<Event>): State
    decreases |events|
  {
    if events == [] then s else RunCounted(w, StepCounted(w, s, events[0]), events[1..])
  }

  // ---- One event ----

  /** `after` follows `before` by one event: the believed length is right, at most one event was added, something was
      dropped only if the list was full, and the list did not outgrow a positive limit. */
  ghost predicate Kept(before: Queue, after: Queue, limit: nat) {
    && after.length == |after.list| <= |before.list| + 1
    && (NothingEvicted(before, after) || |before.list| >= limit > 0)
    && (limit > 0 ==> |after.list| <= Max(limit, |before.list|))
  }

  lemma StoreKeeps(q: Queue, limit: nat, body: string)
    requires q.length == |q.list|
    ensures Kept(q, StoreCounted(q, limit, body), limit)
  {
  }

  lemma {:induction false} DrainKeepsExact(script: Script, link: Link, q: Queue)
    requires q.length == |q.list| < WORD
    ensures var rest := Drain(script, link, q).1;
      rest.length == |rest.list| <= |q.list| && NothingEvicted(q, rest)
    decreases |q.list|
  {
    if q.list != [] {
      var (next, ok) := Publish(script, link, Backlog(q.list[0]));
      if ok {
        DrainKeepsExact(script, next, Shipped(q));
        NothingEvictedTwice(q, Shipped(q), Drain(script, link, q).1);
      }
    }
  }

  lemma PublishKeeps(script: Script, link: Link, q: Queue, limit: nat, body: string)
    requires q.length == |q.list| < WORD
    ensures Kept(q, PublishEventCounted(script, link, q, limit, body).1, limit)
  {
    StoreKeeps(q, limit, body);
    DrainKeepsExact(script, Publish(script, link, Direct(body)).0, q);
  }

  lemma TimerKeepsExact(w: World, s: State, id: nat)
    requires s.queue.length == |s.queue.list| < WORD
    ensures Kept(s.queue, TimerFires(w, s, id).queue, s.config.storageLimit)
  {
    var waited := WaitFrame(w.script, s.link).0;
    DrainKeepsExact(w.script, Connect(w.script, s.link).0, s.queue);
    DrainKeepsExact(w.script, Connect(w.script, Disconnect(waited).0).0, s.queue);
  }

  lemma KeyspaceKeeps(w: World, s: State, master: bool, db: int, event: string, key: string)
    requires s.queue.length == |s.queue.list| < WORD
    ensures Kept(s.queue, KeyspaceCounted(w, s, master, db, event, key).queue, s.config.storageLimit)
  {
    var link := ArmLazily(w.script, s.link, s.timers).0;
    PublishKeeps(w.script, link, s.queue, s.config.storageLimit, EventMessage.Body(db, event, key));
  }

  lemma StepKeeps(w: World, s: State, e: Event)
    requires s.queue.length == |s.queue.list| < WORD
    ensures Kept(s.queue, StepCounted(w, s, e).queue, s.config.storageLimit)
    ensures !Resizes(w.strtol, e) ==> StepCounted(w, s, e).config.storageLimit == s.config.storageLimit
  {
    if e.Keyspace? {
      KeyspaceKeeps(w, s, e.master, e.db, e.event, e.key);
    } else if e.Timer? {
      TimerKeepsExact(w, s, e.id);
    } else if Resizes(w.strtol, e) {
      ResizeSyncs(w, s, e);
    } else {
      StepKeepsQueue(w, s, e);
      StepTraffic(w, s, e);
    }
  }

  // ---- Whole runs ----

  /** Over any run, the size changes included, the believed length stays right. */
  lemma {:induction false} RunCountedIsExact(w: World, s: State, events: seq<Event>)
    requires s.queue.length == |s.queue.list| < WORD - |events|
    ensures var q := RunCounted(w, s, events).queue;
      q.length == |q.list| <= |s.queue.list| + |events|
    decreases |events|
  {
    if events != [] {
      StepKeeps(w, s, events[0]);
      RunCountedIsExact(w, StepCounted(w, s, events[0]), events[1..]);
    }
  }

  lemma {:induction false} RunCountedKeepsLimit(w: World, s: State, events: seq<Event>)
    requires s.queue.length == |s.queue.list| < WORD - |events|
    requires forall i :: 0 <= i < |events| ==> !Resizes(w.strtol, events[i])
    ensures var after, limit := RunCounted(w, s, events), s.config.storageLimit;
      after.config.storageLimit == limit &&
      (limit > 0 ==> |after.queue.list| <= Max(limit, |s.queue.list|))
    decreases |events|
  {
    if events != [] {
      StepKeeps(w, s, events[0]);
      RunCountedKeepsLimit(w, StepCounted(w, s, events[0]), events[1..]);
    }
  }

  /** With the increment, after any run since the size was set the list keeps to the larger of the limit and its length
      then, and whatever happens next drops a stored event only if the list has reached the limit. */
  lemma CountedRunKeepsPromise(w: World, start: State, events: seq<Event>, e: Event)
    requires start.queue.length == |start.queue.list| < WORD - |events|
    requires forall i :: 0 <= i < |events| ==> !Resizes(w.strtol, events[i])
    ensures var after, limit := RunCounted(w, start, events), start.config.storageLimit;
      && (limit > 0 ==> |after.queue.list| <= Max(limit, |start.queue.list|))
      && (NothingEvicted(after.queue, StepCounted(w, after, e).queue) || |after.queue.list| >= limit > 0)
  {
    RunCountedIsExact(w, start, events);
    RunCountedKeepsLimit(w, start, events);
    StepKeeps(w, RunCounted(w, start, events), e);
  }
}
