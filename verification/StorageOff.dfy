/** The fallback storage as a negative size was meant to leave it: the list is deleted, and nothing is stored or
    drained. What the written code does instead agrees with it exactly if the broker accepts every event at once. */
module StorageOff {
  import opened Configuration
  import opened Broker
  import opened Forwarder
  import opened StorageRuns
  import opened NegativeSizes
  import EventMessage

  // ---- The steps that were meant ----

  /** `setupFallbackStorageSizeCommand` with a signed size. */
  function SetSizeMeant(w: World, s: State, argv: seq<string>): State {
    var written := SetStorageSize(w, s, argv);
    if |argv| == 2 && w.strtol(argv[1]) < 0 then written.(queue := s.queue.(list := [])) else written
  }

  ghost function KeyspaceOff(w: World, s: State, master: bool, db: int, event: string, key: string): State {
    if !(master && s.timers.enabled) then s
    else
      var (link, timers) := ArmLazily(w.script, s.link, s.timers);
      if !AnyAdmits(s.config.masks, key) then s.(link := link, timers := timers)
      else
        var body := EventMessage.Body(db, event, key);
        s.(link := Publish(w.script, link, Direct(body)).0, timers := timers, arrivals := s.arrivals + [body])
  }

  function ReconnectOff(script: Script, link: Link): Link {
    var (connected, code) := Connect(script, link);
    if code == Ok then connected else Disconnect(connected).0
  }

  function CheckOff(script: Script, link: Link): Link {
    if link.conn == NoConn then ReconnectOff(script, link)
    else
      var (waited, ok) := WaitFrame(script, link);
      if ok then waited else ReconnectOff(script, Disconnect(waited).0)
  }

  function TimerOff(w: World, s: State, id: nat): State {
    if id !in s.timers.pending then s
    else
      var fired := s.timers.(pending := s.timers.pending - {id}, current := 0);
      if !fired.enabled then s.(timers := fired)
      else s.(link := CheckOff(w.script, s.link), timers := CreateTimer(fired))
  }

  /** One event while the storage is off. */
  ghost function StepOff(w: World, s: State, e: Event): State {
    match e
    case Keyspace(master, db, event, key) => KeyspaceOff(w, s, master, db, event, key)
    case Timer(id) => TimerOff(w, s, id)
    case _ => Step(w, s, e)
  }

  ghost function RunOff(w: World, s: State, events: seq<Event>): State
    decreases |events|
  {
    if events == [] then s else RunOff(w, StepOff(w, s, events[0]), events[1..])
  }

  // ---- What was meant ----

  lemma StepOffKeepsQueue(w: World, s: State, e: Event)
    requires !Resizes(w.strtol, e)
    ensures StepOff(w, s, e).queue == s.queue
  {
    if !e.Keyspace? && !e.Timer? {
      StepKeepsQueue(w, s, e);
    }
  }

  lemma {:induction false} RunOffKeepsQueue(w: World, s: State, events: seq<Event>)
    requires forall i :: 0 <= i < |events| ==> !Resizes(w.strtol, events[i])
    ensures RunOff(w, s, events).queue == s.queue
    decreases |events|
  {
    if events != [] {
      StepOffKeepsQueue(w, s, events[0]);
      RunOffKeepsQueue(w, StepOff(w, s, events[0]), events[1..]);
    }
  }

  /** As it was meant, the list stays empty from a negative size to the next change of it, whatever happens. */
  lemma OffStaysEmpty(w: World, s: State, argv: seq<string>, events: seq<Event>)
    requires |argv| == 2 && w.strtol(argv[1]) < 0
    requires forall i :: 0 <= i < |events| ==> !Resizes(w.strtol, events[i])
    ensures RunOff(w, SetSizeMeant(w, s, argv), events).queue.list == []
  {
    RunOffKeepsQueue(w, SetSizeMeant(w, s, argv), events);
  }

  // ---- What was written ----

  /** With an empty list, an event does what was meant unless it is stored. */
  lemma StepIsOff(w: World, s: State, e: Event)
    requires s.queue.list == [] && !Resizes(w.strtol, e)
    requires IsForwarded(s, e) ==> Accepts(w.script, ArmLazily(w.script, s.link, s.timers).0)
    ensures Step(w, s, e) == StepOff(w, s, e)
  {
    match e
    case Keyspace(master, db, event, key) =>
      if IsForwarded(s, e) {
        var link := ArmLazily(w.script, s.link, s.timers).0;
        PublishSucceedsIff(w.script, link, Direct(EventMessage.Body(db, event, key)));
      }
    case Timer(id) => TimerIsOff(w, s, id);
    case _ =>
  }

  lemma TimerIsOff(w: World, s: State, id: nat)
    requires s.queue.list == []
    ensures TimerFires(w, s, id) == TimerOff(w, s, id)
  {
    if id in s.timers.pending && s.timers.enabled {
      assert CheckConnection(w.script, s.link, s.queue) == (CheckOff(w.script, s.link), s.queue);
    }
  }

  lemma {:induction false} RunPushedGrows(w: World, s: State, events: seq<Event>)
    ensures |s.queue.pushed| <= |Run(w, s, events).queue.pushed|
    decreases |events|
  {
    if events != [] {
      PushedGrows(w, s, events[0]);
      RunPushedGrows(w, Step(w, s, events[0]), events[1..]);
    }
  }

  /** With an empty list, the written code goes through a run as if the storage were off exactly if the broker accepts
      every event that is to be forwarded. */
  lemma {:induction false} WrittenIsOffIff(w: World, s: State, events: seq<Event>)
    requires s.queue.list == [] && forall i :: 0 <= i < |events| ==> !Resizes(w.strtol, events[i])
    ensures Run(w, s, events) == RunOff(w, s, events) <==> AcceptsAll(w, s, events)
    decreases |events|
  {
    if events != [] {
      var next := Step(w, s, events[0]);
      StepStoresIff(w, s, events[0]);
      if IsForwarded(s, events[0]) && !Accepts(w.script, ArmLazily(w.script, s.link, s.timers).0) {
        RunPushedGrows(w, next, events[1..]);
        RunOffKeepsQueue(w, s, events);
      } else {
        StepIsOff(w, s, events[0]);
        WrittenIsOffIff(w, next, events[1..]);
      }
    }
  }
}
