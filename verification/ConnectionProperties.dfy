/** What every run keeps about the connection, the timers and forwarding. */
module ConnectionProperties {
  import opened Configuration
  import opened Broker
  import opened Forwarder
  import ArgumentCodec

  // ---- The connection and timer fields agree ----

  ghost predicate TimersConsistent(t: Timers) {
    && (t.current == 0 || t.current in t.pending)
    && (forall id | id in t.pending :: 0 < id < t.next)
    && t.next > 0
    && t.lazyArms <= 1
    && |t.pending| <= t.lazyArms + t.connects
    // Until something has armed a timer, an enabled module has none.
    && (t.enabled && t.current == 0 ==> t.pending == {} && t.lazyArms == 0)
  }

  ghost predicate Consistent(s: State) {
    && TimersConsistent(s.timers)
    && (s.link.conn == Open ==> s.timers.enabled && s.timers.pending != {})
  }

  lemma CreateKeepsCount(t: Timers, created: Timers)
    requires TimersConsistent(t) && created == CreateTimer(t)
    ensures |created.pending| == |t.pending| + 1 && created.current in created.pending
    ensures forall id | id in created.pending :: 0 < id < created.next
  {
    assert t.next !in t.pending;
  }

  lemma ArmingKeepsTimers(script: Script, link: Link, t: Timers)
    requires TimersConsistent(t) && t.enabled
    ensures var armed := ArmLazily(script, link, t).1;
            TimersConsistent(armed) && armed.enabled && armed.pending != {}
  {
    CreateKeepsCount(t, CreateTimer(t));
  }

  lemma KeyspaceKeepsConsistent(w: World, s: State, master: bool, db: int, event: string, key: string)
    requires Consistent(s)
    ensures Consistent(OnKeyspaceEvent(w, s, master, db, event, key))
  {
    if master && s.timers.enabled {
      ArmingKeepsTimers(w.script, s.link, s.timers);
    }
  }

  lemma RemoveShrinks(ids: set<nat>, id: nat)
    ensures |ids - {id}| == if id in ids then |ids| - 1 else |ids|
  {
    if id in ids {
      assert ids == (ids - {id}) + {id};
    } else {
      assert ids == ids - {id};
    }
  }

  /** The timer fields after a pending timer has fired. */
  function AfterFiring(t: Timers, id: nat): Timers {
    var taken := t.(pending := t.pending - {id}, current := 0);
    if t.enabled then CreateTimer(taken) else taken
  }

  lemma FiringKeepsTimers(t: Timers, id: nat)
    requires TimersConsistent(t) && id in t.pending
    ensures TimersConsistent(AfterFiring(t, id)) && (t.enabled ==> AfterFiring(t, id).pending != {})
  {
    RemoveShrinks(t.pending, id);
    if t.enabled {
      var taken := t.(pending := t.pending - {id}, current := 0);
      assert t.next !in taken.pending;
      assert t.next in CreateTimer(taken).pending;
    }
  }

  lemma TimerKeepsConsistent(w: World, s: State, id: nat)
    requires Consistent(s)
    ensures Consistent(TimerFires(w, s, id))
  {
    if id in s.timers.pending {
      FiringKeepsTimers(s.timers, id);
    }
  }

  lemma ConnectKeepsTimers(script: Script, link: Link, t: Timers)
    requires TimersConsistent(t) && (link.conn == Open ==> t.enabled && t.pending != {})
    ensures var (connected, armed) := ConnectAndArm(script, link, t);
      TimersConsistent(armed) && (connected.conn == Open ==> armed.enabled && armed.pending != {})
  {
    CreateKeepsCount(t, CreateTimer(t));
  }

  lemma DisarmKeepsTimers(t: Timers)
    requires TimersConsistent(t)
    ensures TimersConsistent(Disarm(t))
  {
    RemoveShrinks(t.pending, t.current);
  }

  lemma ExecuteKeepsConsistent(w: World, s: State, kind: Kind, argv: seq<string>)
    requires Consistent(s)
    ensures Consistent(Execute(w, s, kind, argv))
  {
    match kind
    case ConnectCmd => ConnectKeepsTimers(w.script, s.link, s.timers);
    case DisconnectCmd => DisarmKeepsTimers(s.timers);
    case _ =>
  }

  lemma StepKeepsConsistent(w: World, s: State, e: Event)
    requires Consistent(s)
    ensures Consistent(Step(w, s, e))
  {
    match e
    case Keyspace(master, db, event, key) => KeyspaceKeepsConsistent(w, s, master, db, event, key);
    case Timer(id) => TimerKeepsConsistent(w, s, id);
    case Command(kind, argv) => ExecuteKeepsConsistent(w, s, kind, argv);
    case Message(kind, payload) =>
      var argv := ArgumentCodec.Split(payload);
      if kind == COMMAND_MESSAGE && argv != [] && Dispatch(argv[0]) != [] {
        ExecuteKeepsConsistent(w, s, Dispatch(argv[0])[0], argv);
      }
  }

  lemma {:induction false} RunKeepsConsistent(w: World, s: State, events: seq<Event>)
    requires Consistent(s)
    ensures Consistent(Run(w, s, events))
    decreases |events|
  {
    if events != [] {
      StepKeepsConsistent(w, s, events[0]);
      RunKeepsConsistent(w, Step(w, s, events[0]), events[1..]);
    }
  }

  /** From load on, whatever happens: an open connection has forwarding enabled and a timer to watch
      it, the current timer is pending, events arm it at most once, and each timer beyond the first
      is owed to a connect command. */
  lemma EveryReachableStateIsConsistent(w: World, argv: seq<string>, stored: seq<string>, events: seq<Event>)
    ensures Consistent(Run(w, Loaded(w, argv, stored).0, events))
  {
    RunKeepsConsistent(w, Loaded(w, argv, stored).0, events);
  }

  /** A successful connect command adds a timer to those pending; it stops none. */
  lemma ConnectAddsATimer(w: World, s: State, argv: seq<string>)
    requires Consistent(s)
    ensures var t := Execute(w, s, ConnectCmd, argv).timers;
            if t.connects == s.timers.connects then t == s.timers
            else |t.pending| == |s.timers.pending| + 1 && t.enabled
  {
    CreateKeepsCount(s.timers, CreateTimer(s.timers));
  }

  /** Two timers can be pending at once: an event arms the first, the connection is refused, and a
      connect command creates the second. A disconnect command then stops only the second. */
  lemma TwoTimersCanBePending(w: World, argv: seq<string>, stored: seq<string>, key: string)
    requires Loaded(w, argv, stored).0.timers.enabled
    requires w.script(0).connect == OpenFails && w.script(1).connect == Connects
    ensures var s := Loaded(w, argv, stored).0;
            var event, connect := Keyspace(true, 0, "expired", key), Command(ConnectCmd, [Name(ConnectCmd)]);
            var disconnect := Command(DisconnectCmd, [Name(DisconnectCmd)]);
            && Run(w, s, [event, connect]).timers.pending == {1, 2}
            && Run(w, s, [event, connect, disconnect]).timers.pending == {1}
  {
    var s := Loaded(w, argv, stored).0;
    var event, connect := Keyspace(true, 0, "expired", key), Command(ConnectCmd, [Name(ConnectCmd)]);
    var disconnect := Command(DisconnectCmd, [Name(DisconnectCmd)]);
    var s1 := Step(w, s, event);
    assert s1.timers.pending == {1} && s1.link.conn == NoConn && s1.link.calls == 1;
    var s2 := Step(w, s1, connect);
    assert s2.timers.pending == {1, 2} && s2.timers.current == 2;
    RunTwo(w, s, event, connect);
    RunThree(w, s, event, connect, disconnect);
  }

  lemma RunTwo(w: World, s: State, a: Event, b: Event)
    ensures Run(w, s, [a, b]) == Step(w, Step(w, s, a), b)
  {
    var s1 := Step(w, s, a);
    assert [a, b][1..] == [b] && [b][1..] == [];
    assert Run(w, s1, [b]) == Run(w, Step(w, s1, b), []);
  }

  lemma RunThree(w: World, s: State, a: Event, b: Event, c: Event)
    ensures Run(w, s, [a, b, c]) == Step(w, Step(w, Step(w, s, a), b), c)
  {
    assert [a, b, c][1..] == [b, c];
    RunTwo(w, Step(w, s, a), b, c);
  }

  // ---- Silence after a disconnect ----

  /** The event is not a connect command, typed here or received from another node. */
  ghost predicate NotConnect(e: Event) {
    match e
    case Command(kind, _) => kind != ConnectCmd
    case Message(kind, payload) =>
      var argv := ArgumentCodec.Split(payload);
      kind == COMMAND_MESSAGE && argv != [] ==> argv[0] != Name(ConnectCmd)
    case _ => true
  }

  /** Disabled and without a connection. */
  ghost predicate Silent(s: State) {
    !s.timers.enabled && s.link.conn == NoConn
  }

  /** Nothing was sent, stored, dropped or asked of the broker, and no timer was added. */
  ghost predicate NothingHappened(before: State, after: State) {
    && after.link == before.link
    && after.queue.list == before.queue.list && after.queue.pushed == before.queue.pushed
    && after.queue.departed == before.queue.departed
    && after.timers.pending <= before.timers.pending
    && after.arrivals == before.arrivals
  }

  lemma ExecuteStaysSilent(w: World, s: State, kind: Kind, argv: seq<string>)
    requires Silent(s) && kind != ConnectCmd
    ensures Silent(Execute(w, s, kind, argv)) && NothingHappened(s, Execute(w, s, kind, argv))
  {
  }

  lemma DispatchNames(command: string)
    ensures Dispatch(command) != [] ==> |Dispatch(command)| == 1 && command == Name(Dispatch(command)[0])
  {
  }

  lemma StepStaysSilent(w: World, s: State, e: Event)
    requires Silent(s) && NotConnect(e)
    ensures Silent(Step(w, s, e)) && NothingHappened(s, Step(w, s, e))
  {
    match e
    case Command(kind, argv) => ExecuteStaysSilent(w, s, kind, argv);
    case Message(kind, payload) =>
      var argv := ArgumentCodec.Split(payload);
      if kind == COMMAND_MESSAGE && argv != [] && Dispatch(argv[0]) != [] {
        DispatchNames(argv[0]);
        ExecuteStaysSilent(w, s, Dispatch(argv[0])[0], argv);
      }
    case _ =>
  }

  lemma {:induction false} RunStaysSilent(w: World, s: State, events: seq<Event>)
    requires Silent(s) && forall i | 0 <= i < |events| :: NotConnect(events[i])
    ensures Silent(Run(w, s, events)) && NothingHappened(s, Run(w, s, events))
    decreases |events|
  {
    if events != [] {
      StepStaysSilent(w, s, events[0]);
      RunStaysSilent(w, Step(w, s, events[0]), events[1..]);
    }
  }

  /** Between a disconnect command and the next connect command nothing is published or stored, along
      every interleaving, even with timers the disconnect did not stop. */
  lemma SilenceAfterDisconnect(w: World, s: State, argv: seq<string>, events: seq<Event>)
    requires forall i | 0 <= i < |events| :: NotConnect(events[i])
    ensures var off := Execute(w, s, DisconnectCmd, argv);
            Silent(Run(w, off, events)) && NothingHappened(off, Run(w, off, events))
  {
    RunStaysSilent(w, Execute(w, s, DisconnectCmd, argv), events);
  }

  /** The timers that came due. */
  function FiredTimers(events: seq<Event>): set<nat>
    decreases |events|
  {
    if events == [] then {}
    else (if events[0].Timer? then {events[0].id} else {}) + FiredTimers(events[1..])
  }

  lemma SilentCommandKeepsTimers(w: World, s: State, kind: Kind, argv: seq<string>)
    requires Silent(s) && s.timers.current == 0 && kind != ConnectCmd
    ensures Execute(w, s, kind, argv).timers == s.timers
  {
  }

  lemma SilentStepTimers(w: World, s: State, e: Event)
    requires Silent(s) && s.timers.current == 0 && NotConnect(e)
    ensures var t := Step(w, s, e).timers;
            t.current == 0 && t.pending == s.timers.pending - if e.Timer? then {e.id} else {}
  {
    match e
    case Command(kind, argv) => SilentCommandKeepsTimers(w, s, kind, argv);
    case Message(kind, payload) =>
      var argv := ArgumentCodec.Split(payload);
      if kind == COMMAND_MESSAGE && argv != [] && Dispatch(argv[0]) != [] {
        DispatchNames(argv[0]);
        SilentCommandKeepsTimers(w, s, Dispatch(argv[0])[0], argv);
      }
    case _ =>
  }

  lemma {:induction false} SilentRunTimers(w: World, s: State, events: seq<Event>)
    requires Silent(s) && s.timers.current == 0 && forall i | 0 <= i < |events| :: NotConnect(events[i])
    ensures Run(w, s, events).timers.pending == s.timers.pending - FiredTimers(events)
    decreases |events|
  {
    if events != [] {
      StepStaysSilent(w, s, events[0]);
      SilentStepTimers(w, s, events[0]);
      SilentRunTimers(w, Step(w, s, events[0]), events[1..]);
    }
  }

  /** The timers a disconnect did not stop disappear one by one as they come due, and none takes their place. */
  lemma TimersDieInSilence(w: World, s: State, argv: seq<string>, events: seq<Event>)
    requires forall i | 0 <= i < |events| :: NotConnect(events[i])
    ensures var off := Execute(w, s, DisconnectCmd, argv);
            Run(w, off, events).timers.pending == off.timers.pending - FiredTimers(events)
  {
    SilentRunTimers(w, Execute(w, s, DisconnectCmd, argv), events);
  }
}
