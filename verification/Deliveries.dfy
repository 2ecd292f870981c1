/** What a timer, an event and the connection commands send and store, read off the broker's answers alone. */
module Deliveries {
  import opened Configuration
  import opened Broker
  import opened Forwarder
  import ConnectionProperties
  import EventMessage

  // ---- The broker's answers ----

  /** A message offered at call `call` is taken: the frames are fine, and then the message is accepted. */
  predicate Takes(script: Script, call: nat) {
    script(call).framesOk && script(call + 1).publishOk
  }

  /** Of `n` messages offered from call `call` on, two calls each, the first `k` are taken and the next is not. */
  ghost predicate TakesExactly(script: Script, call: nat, n: nat, k: nat) {
    && k <= n
    && (forall j: nat :: j < k ==> Takes(script, call + 2 * j))
    && (k < n ==> !Takes(script, call + 2 * k))
  }

  /** All of `n` messages offered from call `call` on are taken. */
  ghost predicate TakesAll(script: Script, call: nat, n: nat) {
    forall j: nat :: j < n ==> Takes(script, call + 2 * j)
  }

  /** What a connection attempt makes of a null connection. */
  function ConnAfter(outcome: ConnectOutcome): Conn {
    match outcome
    case SocketFails => HalfOpen
    case Connects => Open
    case _ => NoConn
  }

  function Backlogs(bodies: seq<string>): seq<Sent> {
    seq(|bodies|, i requires 0 <= i < |bodies| => Backlog(bodies[i]))
  }

  /** From `before`, with `list` stored, the backlog was offered: the broker took its first `k` events in order, and the
      others stay stored. Bad frames close the connection. */
  ghost predicate Offered(script: Script, before: Link, list: seq<string>, after: Link, rest: seq<string>, k: nat) {
    && TakesExactly(script, before.calls, |list|, k)
    && after.sent == before.sent + Backlogs(list[..k]) && rest == list[k..]
    && (k == |list| ==> after.conn == before.conn && after.calls == before.calls + 2 * k)
    && (k < |list| ==>
          if script(before.calls + 2 * k).framesOk then
            after.conn == before.conn && after.calls == before.calls + 2 * k + 2
          else after.conn == NoConn && after.calls == before.calls + 2 * k + 1)
  }

  /** Nothing stays stored exactly if the broker takes everything, and then everything was sent. */
  lemma OfferedAllIff(script: Script, before: Link, list: seq<string>, after: Link, rest: seq<string>, k: nat)
    requires Offered(script, before, list, after, rest, k)
    ensures rest == [] <==> TakesAll(script, before.calls, |list|)
    ensures rest == [] ==> after.conn == before.conn && after.sent == before.sent + Backlogs(list)
  {
    if k < |list| {
      assert !Takes(script, before.calls + 2 * k);
    }
    assert list[..|list|] == list;
  }

  // ---- Draining ----

  lemma PublishOutcome(script: Script, link: Link, m: Sent)
    requires link.conn != NoConn
    ensures var (after, ok) := Publish(script, link, m);
      && (ok <==> Takes(script, link.calls))
      && after.sent == (if ok then link.sent + [m] else link.sent)
      && after.conn == (if script(link.calls).framesOk then link.conn else NoConn)
      && (ok ==> after.calls == link.calls + 2)
  {
  }

  lemma OneMoreTaken(script: Script, call: nat, n: nat, k: nat)
    requires Takes(script, call) && TakesExactly(script, call + 2, n, k)
    ensures TakesExactly(script, call, n + 1, k + 1)
  {
    forall j: nat | j < k + 1
      ensures Takes(script, call + 2 * j)
    {
      if j > 0 {
        var i: nat := j - 1;
        assert Takes(script, call + 2 + 2 * i);
      }
    }
    assert call + 2 * (k + 1) == call + 2 + 2 * k;
  }

  lemma OfferedOneMore(script: Script, link: Link, list: seq<string>, next: Link, after: Link, rest: seq<string>,
                       k: nat)
    requires list != [] && Takes(script, link.calls)
    requires next.sent == link.sent + [Backlog(list[0])] && next.conn == link.conn && next.calls == link.calls + 2
    requires Offered(script, next, list[1..], after, rest, k)
    ensures Offered(script, link, list, after, rest, k + 1)
  {
    assert Backlogs(list[..k + 1]) == [Backlog(list[0])] + Backlogs(list[1..][..k]);
    OneMoreTaken(script, link.calls, |list| - 1, k);
    assert link.calls + 2 * (k + 1) == next.calls + 2 * k;
  }

  lemma {:induction false} DrainOutcome(script: Script, link: Link, q: Queue) returns (k: nat)
    requires link.conn != NoConn
    ensures var (after, rest, _) := Drain(script, link, q);
      Offered(script, link, q.list, after, rest.list, k)
    decreases |q.list|
  {
    k := 0;
    if q.list != [] {
      var (next, ok) := Publish(script, link, Backlog(q.list[0]));
      PublishOutcome(script, link, Backlog(q.list[0]));
      if ok {
        var (after, rest, _) := Drain(script, next, Shipped(q));
        var m := DrainOutcome(script, next, Shipped(q));
        OfferedOneMore(script, link, q.list, next, after, rest.list, m);
        k := m + 1;
      }
    }
  }

  // ---- Timers ----

  /** The call at which a timer reconnects: on an open connection, the one after waiting for frames. */
  function ReconnectCall(link: Link): nat {
    if link.conn == NoConn then link.calls else link.calls + 1
  }

  lemma ReconnectOutcome(script: Script, link: Link, q: Queue) returns (k: nat)
    requires link.conn == NoConn
    ensures var (after, rest) := Reconnect(script, link, q);
      if script(link.calls).connect != Connects then after == Link(NoConn, link.calls + 1, link.sent) && rest == q
      else Offered(script, Link(Open, link.calls + 1, link.sent), q.list, after, rest.list, k)
  {
    k := 0;
    if script(link.calls).connect == Connects {
      k := DrainOutcome(script, Link(Open, link.calls + 1, link.sent), q);
    }
  }

  lemma CheckOutcome(script: Script, link: Link, q: Queue) returns (k: nat)
    ensures var (after, rest) := CheckConnection(script, link, q);
      var at := ReconnectCall(link);
      if link.conn != NoConn && script(link.calls).framesOk then after == link.(calls := at) && rest == q
      else if script(at).connect != Connects then after == Link(NoConn, at + 1, link.sent) && rest == q
      else Offered(script, Link(Open, at + 1, link.sent), q.list, after, rest.list, k)
  {
    k := ReconnectOutcome(script, Link(NoConn, ReconnectCall(link), link.sent), q);
  }

  /** A pending timer of an enabled module comes due. A connection with good frames is left alone. Otherwise, at the
      next call, the module reconnects: if that fails there is no connection left and nothing is sent, and if it
      succeeds the backlog is offered at once. In every case the next timer takes over. */
  lemma TimerOutcome(w: World, s: State, id: nat) returns (k: nat)
    requires id in s.timers.pending && s.timers.enabled
    ensures var after, at := TimerFires(w, s, id), ReconnectCall(s.link);
      if s.link.conn != NoConn && w.script(s.link.calls).framesOk then
        after.link == s.link.(calls := at) && after.queue == s.queue
      else if w.script(at).connect != Connects then
        after.link == Link(NoConn, at + 1, s.link.sent) && after.queue == s.queue
      else
        Offered(w.script, Link(Open, at + 1, s.link.sent), s.queue.list, after.link, after.queue.list, k)
    ensures var before, after := s.timers, TimerFires(w, s, id).timers;
      && after.enabled && after.current == before.next && after.next == before.next + 1
      && after.pending == before.pending - {id} + {before.next}
  {
    k := CheckOutcome(w.script, s.link, s.queue);
  }

  /** What a timer leaves alone: everything if it is not pending, and everything but itself while forwarding is off. */
  lemma TimerFrame(w: World, s: State, id: nat)
    ensures var after, t := TimerFires(w, s, id), s.timers;
      if id !in t.pending then after == s
      else if !t.enabled then after == s.(timers := t.(current := 0, pending := t.pending - {id}))
      else after == s.(link := after.link, queue := after.queue, timers := after.timers)
  {
  }

  /** A timer that reopens the connection leaves nothing stored exactly if the broker takes every stored event, and then
      all of them were sent, oldest first. */
  lemma TimerEmptiesBacklogIff(w: World, s: State, id: nat)
    requires id in s.timers.pending && s.timers.enabled
    requires s.link.conn == NoConn || !w.script(s.link.calls).framesOk
    requires w.script(ReconnectCall(s.link)).connect == Connects
    ensures var after, first := TimerFires(w, s, id), ReconnectCall(s.link) + 1;
      && (after.queue.list == [] <==> TakesAll(w.script, first, |s.queue.list|))
      && (after.queue.list == [] ==> after.link.conn == Open && after.link.sent == s.link.sent + Backlogs(s.queue.list))
  {
    var after, at := TimerFires(w, s, id), ReconnectCall(s.link);
    var k := TimerOutcome(w, s, id);
    OfferedAllIff(w.script, Link(Open, at + 1, s.link.sent), s.queue.list, after.link, after.queue.list, k);
  }

  // ---- Keyspace events ----

  /** The connection an event finds: with no timer running and no connection, one attempt was made to open it. */
  function Found(script: Script, link: Link, timers: Timers): Link {
    if timers.current == 0 && link.conn == NoConn then
      Link(ConnAfter(script(link.calls).connect), link.calls + 1, link.sent)
    else link
  }

  lemma PublishEventOutcome(script: Script, link: Link, q: Queue, limit: nat, body: string) returns (k: nat)
    ensures var (after, rest) := PublishEvent(script, link, q, limit, body);
      var stored := Store(q, limit, body);
      if link.conn == NoConn then after == link && rest == stored
      else if !script(link.calls).framesOk then after == Link(NoConn, link.calls + 1, link.sent) && rest == stored
      else if !script(link.calls + 1).publishOk then
        after == Link(link.conn, link.calls + 2, link.sent) && rest == stored
      else
        Offered(script, Link(link.conn, link.calls + 2, link.sent + [Direct(body)]), q.list, after, rest.list, k)
  {
    k := 0;
    if link.conn != NoConn && Takes(script, link.calls) {
      k := DrainOutcome(script, Link(link.conn, link.calls + 2, link.sent + [Direct(body)]), q);
    }
  }

  /** An event that passes the masks. Without a connection it is stored. Bad frames lose the connection and a refusal
      keeps it, and either way the event is stored too. Otherwise it was sent, and the backlog is offered after it. */
  lemma EventOutcome(w: World, s: State, db: int, event: string, key: string) returns (k: nat)
    requires s.timers.enabled && AnyAdmits(s.config.masks, key)
    ensures var after, found := OnKeyspaceEvent(w, s, true, db, event, key), Found(w.script, s.link, s.timers);
      var body := EventMessage.Body(db, event, key);
      var stored := Store(s.queue, s.config.storageLimit, body);
      if found.conn == NoConn then after.link == found && after.queue == stored
      else if !w.script(found.calls).framesOk then
        after.link == Link(NoConn, found.calls + 1, s.link.sent) && after.queue == stored
      else if !w.script(found.calls + 1).publishOk then
        after.link == Link(found.conn, found.calls + 2, s.link.sent) && after.queue == stored
      else
        Offered(w.script, Link(found.conn, found.calls + 2, s.link.sent + [Direct(body)]), s.queue.list,
                after.link, after.queue.list, k)
  {
    var body := EventMessage.Body(db, event, key);
    var found := Found(w.script, s.link, s.timers);
    assert ArmLazily(w.script, s.link, s.timers).0 == found;
    k := PublishEventOutcome(w.script, found, s.queue, s.config.storageLimit, body);
  }

  /** An accepted event leaves nothing stored exactly if the broker takes every stored event too. */
  lemma EventEmptiesBacklogIff(w: World, s: State, db: int, event: string, key: string)
    requires s.timers.enabled && AnyAdmits(s.config.masks, key)
    requires var found := Found(w.script, s.link, s.timers); found.conn != NoConn && Takes(w.script, found.calls)
    ensures var after, found := OnKeyspaceEvent(w, s, true, db, event, key), Found(w.script, s.link, s.timers);
      && (after.queue.list == [] <==> TakesAll(w.script, found.calls + 2, |s.queue.list|))
      && (after.queue.list == [] ==>
            && after.link.conn == found.conn
            && after.link.sent == s.link.sent + [Direct(EventMessage.Body(db, event, key))] + Backlogs(s.queue.list))
  {
    var after, found := OnKeyspaceEvent(w, s, true, db, event, key), Found(w.script, s.link, s.timers);
    var k := EventOutcome(w, s, db, event, key);
    var offered := Link(found.conn, found.calls + 2, s.link.sent + [Direct(EventMessage.Body(db, event, key))]);
    OfferedAllIff(w.script, offered, s.queue.list, after.link, after.queue.list, k);
  }

  /** What an event leaves alone. On a replica, and while forwarding is off, that is everything. An event that no mask
      admits only opens the connection, if no timer is running; the first timer is started then. */
  lemma EventFrame(w: World, s: State, master: bool, db: int, event: string, key: string)
    ensures var after, t := OnKeyspaceEvent(w, s, master, db, event, key), s.timers;
      if !master || !t.enabled then after == s
      else
        && after.config == s.config
        && (t.current != 0 ==> after.timers == t)
        && (t.current == 0 ==> after.timers == Timers(true, t.next, t.pending + {t.next}, t.next + 1, t.lazyArms + 1,
                                                      t.connects))
        && (AnyAdmits(s.config.masks, key) ==> after.arrivals == s.arrivals + [EventMessage.Body(db, event, key)])
        && (!AnyAdmits(s.config.masks, key) ==>
              after.arrivals == s.arrivals && after.queue == s.queue && after.link == Found(w.script, s.link, t))
  {
  }

  // ---- Both together ----

  /** From call `from` on the broker connects, keeps its frames in order and accepts everything. */
  ghost predicate Healthy(script: Script, from: nat) {
    forall call: nat :: from <= call ==> script(call) == Reply(true, true, Connects)
  }

  lemma HealthyTakesAll(script: Script, from: nat, call: nat, n: nat)
    requires Healthy(script, from) && from <= call
    ensures Takes(script, call) && TakesAll(script, call, n)
  {
  }

  lemma HealthyTimer(w: World, s: State, id: nat)
    requires Healthy(w.script, s.link.calls) && s.timers.enabled && id in s.timers.pending
    ensures var after, sends := TimerFires(w, s, id), s.link.conn == NoConn;
      && after.timers.enabled && after.config == s.config
      && after.link.conn != NoConn && s.link.calls <= after.link.calls
      && after.link.sent == (if sends then s.link.sent + Backlogs(s.queue.list) else s.link.sent)
      && after.queue.list == (if sends then [] else s.queue.list)
  {
    var k := TimerOutcome(w, s, id);
    if s.link.conn == NoConn {
      HealthyTakesAll(w.script, s.link.calls, s.link.calls + 1, |s.queue.list|);
      TimerEmptiesBacklogIff(w, s, id);
    }
  }

  lemma HealthyEvent(w: World, s: State, db: int, event: string, key: string)
    requires Healthy(w.script, s.link.calls) && s.link.conn != NoConn
    requires s.timers.enabled && AnyAdmits(s.config.masks, key)
    ensures var after, body := OnKeyspaceEvent(w, s, true, db, event, key), EventMessage.Body(db, event, key);
      && after.queue.list == [] && after.link.conn != NoConn
      && after.link.sent == s.link.sent + [Direct(body)] + Backlogs(s.queue.list)
  {
    HealthyTakesAll(w.script, s.link.calls, s.link.calls, 0);
    HealthyTakesAll(w.script, s.link.calls, s.link.calls + 2, |s.queue.list|);
    EventEmptiesBacklogIff(w, s, db, event, key);
  }

  lemma SentInTurn(sent: seq<Sent>, stored: seq<Sent>, direct: seq<Sent>)
    ensures (sent + stored) + direct == sent + (stored + direct)
    ensures (sent + direct) + stored == sent + (direct + stored)
    ensures sent + Backlogs([]) == sent
  {
    assert Backlogs([]) == [];
  }

  /** Once the broker is healthy, the next timer and one more event bring out everything stored: the timer sends the
      backlog if it has to reconnect, and otherwise the event takes it along. */
  lemma NothingStaysStored(w: World, s: State, id: nat, db: int, event: string, key: string)
    requires Healthy(w.script, s.link.calls)
    requires s.timers.enabled && id in s.timers.pending && AnyAdmits(s.config.masks, key)
    ensures var after := Run(w, s, [Timer(id), Keyspace(true, db, event, key)]);
      var direct, stored := [Direct(EventMessage.Body(db, event, key))], Backlogs(s.queue.list);
      && after.queue.list == [] && after.link.conn != NoConn
      && after.link.sent == s.link.sent + if s.link.conn == NoConn then stored + direct else direct + stored
  {
    ConnectionProperties.RunTwo(w, s, Timer(id), Keyspace(true, db, event, key));
    HealthyTimer(w, s, id);
    var checked := TimerFires(w, s, id);
    assert Healthy(w.script, checked.link.calls);
    HealthyEvent(w, checked, db, event, key);
    var direct, stored := [Direct(EventMessage.Body(db, event, key))], Backlogs(s.queue.list);
    SentInTurn(s.link.sent, stored, direct);
    SentInTurn((s.link.sent + stored) + direct, stored, direct);
  }

  // ---- Connection commands ----

  /** `connect` with accepted arguments opens a null connection and, if that works, starts forwarding and a timer. It
      sends nothing, and it does nothing to a connection that is there, not even a half-open one. */
  lemma ConnectCommandOutcome(w: World, s: State, argv: seq<string>)
    ensures var after, t := Execute(w, s, ConnectCmd, argv), s.timers;
      && after.link.sent == s.link.sent && after.queue.list == s.queue.list && after.arrivals == s.arrivals
      && if BadMode(w.strtol, Rest(argv)) || s.link.conn != NoConn then after.link == s.link && after.timers == t
         else
           var outcome := w.script(s.link.calls).connect;
           && after.link == Link(ConnAfter(outcome), s.link.calls + 1, s.link.sent)
           && after.timers == if outcome == Connects then
                                Timers(true, t.next, t.pending + {t.next}, t.next + 1, t.lazyArms, t.connects + 1)
                              else t
  {
  }

  /** `disconnect` stops forwarding and the current timer and leaves no connection; nothing else changes. */
  lemma DisconnectCommandOutcome(w: World, s: State, argv: seq<string>)
    ensures var after, t := Execute(w, s, DisconnectCmd, argv), s.timers;
      && after.config == s.config && after.queue == s.queue && after.arrivals == s.arrivals
      && after.link == Link(NoConn, s.link.calls, s.link.sent)
      && after.timers == Timers(false, 0, t.pending - (if t.current != 0 then {t.current} else {}), t.next, t.lazyArms,
                                t.connects)
  {
  }

  // ---- When the backlog waits ----

  /** From call `from` on, waiting for frames succeeds. */
  ghost predicate FramesStayGood(script: Script, from: nat) {
    forall call: nat :: from <= call ==> script(call).framesOk
  }

  predicate OnlyTimers(events: seq<Event>) {
    forall e :: e in events ==> e.Timer?
  }

  lemma IdleStep(w: World, s: State, id: nat)
    requires s.link.conn != NoConn && FramesStayGood(w.script, s.link.calls)
    ensures var after := TimerFires(w, s, id);
      && after.queue == s.queue && after.link.conn == s.link.conn && after.link.sent == s.link.sent
      && s.link.calls <= after.link.calls
  {
  }

  /** While a connection holds, timers send nothing, however many come due: only an event takes the backlog along. */
  lemma {:induction false} IdleBacklogWaits(w: World, s: State, events: seq<Event>)
    requires s.link.conn != NoConn && FramesStayGood(w.script, s.link.calls) && OnlyTimers(events)
    ensures var after := Run(w, s, events);
      after.queue == s.queue && after.link.conn == s.link.conn && after.link.sent == s.link.sent
    decreases |events|
  {
    if events != [] {
      var next := Step(w, s, events[0]);
      assert events[0].Timer?;
      IdleStep(w, s, events[0].id);
      assert FramesStayGood(w.script, next.link.calls) && OnlyTimers(events[1..]);
      IdleBacklogWaits(w, next, events[1..]);
    }
  }

  /** So a backlog does not go out when a connect command brings the connection back, not even to a healthy broker. */
  lemma ConnectLeavesBacklog(w: World, s: State, argv: seq<string>, events: seq<Event>)
    requires Healthy(w.script, s.link.calls) && s.link.conn == NoConn
    requires !BadMode(w.strtol, Rest(argv)) && OnlyTimers(events)
    ensures var after := Run(w, Execute(w, s, ConnectCmd, argv), events);
      && after.link.conn == Open
      && after.link.sent == s.link.sent && after.queue.list == s.queue.list
  {
    ConnectCommandOutcome(w, s, argv);
    var connected := Execute(w, s, ConnectCmd, argv);
    assert FramesStayGood(w.script, connected.link.calls);
    IdleBacklogWaits(w, connected, events);
  }
}
