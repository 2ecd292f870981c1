/** An induction principle for what has been sent, stored and seen to arrive: four ways in which a
    step can change them, and a proof that no run changes them otherwise. */
module RunInduction {
  import opened Configuration
  import opened Broker
  import opened Forwarder
  import ArgumentCodec
  import EventMessage

  /** A property of what the broker accepted, the queue and the arrivals. */
  type Property = (seq<Sent>, Queue, seq<string>) -> bool

  /** Publishing the head of the queue keeps the property. */
  ghost predicate KeptByShipping(p: Property) {
    forall sent, q, arrivals :: p(sent, q, arrivals) && q.list != [] ==>
      p(sent + [Backlog(q.list[0])], Shipped(q), arrivals)
  }

  /** Storing an arriving event keeps it. */
  ghost predicate KeptByStoring(p: Property) {
    forall sent, q, arrivals, limit: nat, body :: p(sent, q, arrivals) ==>
      p(sent, Store(q, limit, body), arrivals + [body])
  }

  /** Publishing an arriving event directly keeps it. */
  ghost predicate KeptByDirect(p: Property) {
    forall sent, q, arrivals, body :: p(sent, q, arrivals) ==> p(sent + [Direct(body)], q, arrivals + [body])
  }

  /** Reading the length of the list again keeps it. */
  ghost predicate KeptBySync(p: Property) {
    forall sent, q, arrivals :: p(sent, q, arrivals) ==> p(sent, Sync(q), arrivals)
  }

  ghost predicate Stable(p: Property) {
    KeptByShipping(p) && KeptByStoring(p) && KeptByDirect(p) && KeptBySync(p)
  }

  ghost predicate Holds(p: Property, s: State) {
    p(s.link.sent, s.queue, s.arrivals)
  }

  lemma {:induction false} DrainKeeps(p: Property, script: Script, link: Link, q: Queue, arrivals: seq<string>)
    requires KeptByShipping(p) && p(link.sent, q, arrivals)
    ensures var (after, rest, _) := Drain(script, link, q); p(after.sent, rest, arrivals)
    decreases |q.list|
  {
    if q.list != [] {
      var (next, ok) := Publish(script, link, Backlog(q.list[0]));
      if ok {
        DrainKeeps(p, script, next, Shipped(q), arrivals);
      }
    }
  }

  lemma PublishEventKeeps(p: Property, script: Script, link: Link, q: Queue, limit: nat, body: string,
                          arrivals: seq<string>)
    requires Stable(p) && p(link.sent, q, arrivals)
    ensures var (after, rest) := PublishEvent(script, link, q, limit, body);
            p(after.sent, rest, arrivals + [body])
  {
    var (next, ok) := Publish(script, link, Direct(body));
    if link.conn != NoConn && ok {
      DrainKeeps(p, script, next, q, arrivals + [body]);
    }
  }

  lemma KeyspaceKeeps(p: Property, w: World, s: State, master: bool, db: int, event: string, key: string)
    requires Stable(p) && Holds(p, s)
    ensures Holds(p, OnKeyspaceEvent(w, s, master, db, event, key))
  {
    PublishEventKeeps(p, w.script, ArmLazily(w.script, s.link, s.timers).0, s.queue, s.config.storageLimit,
                      EventMessage.Body(db, event, key), s.arrivals);
  }

  lemma ReconnectKeeps(p: Property, script: Script, link: Link, q: Queue, arrivals: seq<string>)
    requires Stable(p) && p(link.sent, q, arrivals)
    ensures var (after, rest) := Reconnect(script, link, q); p(after.sent, rest, arrivals)
  {
    DrainKeeps(p, script, Connect(script, link).0, q, arrivals);
  }

  lemma TimerKeeps(p: Property, w: World, s: State, id: nat)
    requires Stable(p) && Holds(p, s)
    ensures Holds(p, TimerFires(w, s, id))
  {
    ReconnectKeeps(p, w.script, s.link, s.queue, s.arrivals);
    ReconnectKeeps(p, w.script, Disconnect(WaitFrame(w.script, s.link).0).0, s.queue, s.arrivals);
  }

  lemma ExecuteKeeps(p: Property, w: World, s: State, kind: Kind, argv: seq<string>)
    requires Stable(p) && Holds(p, s)
    ensures Holds(p, Execute(w, s, kind, argv))
  {
  }

  lemma StepKeeps(p: Property, w: World, s: State, e: Event)
    requires Stable(p) && Holds(p, s)
    ensures Holds(p, Step(w, s, e))
  {
    match e
    case Keyspace(master, db, event, key) => KeyspaceKeeps(p, w, s, master, db, event, key);
    case Timer(id) => TimerKeeps(p, w, s, id);
    case Command(kind, argv) => ExecuteKeeps(p, w, s, kind, argv);
    case Message(kind, payload) =>
      var argv := ArgumentCodec.Split(payload);
      if kind == COMMAND_MESSAGE && argv != [] && Dispatch(argv[0]) != [] {
        ExecuteKeeps(p, w, s, Dispatch(argv[0])[0], argv);
      }
  }

  /** A property that holds at the start and is kept by the four changes holds after every run. */
  lemma {:induction false} RunKeeps(p: Property, w: World, s: State, events: seq<Event>)
    requires Stable(p) && Holds(p, s)
    ensures Holds(p, Run(w, s, events))
    decreases |events|
  {
    if events != [] {
      StepKeeps(p, w, s, events[0]);
      RunKeeps(p, w, Step(w, s, events[0]), events[1..]);
    }
  }
}
