/** The AMQP connection (amqp_connection.c) and the fallback queue it drains into (library.c). The
    broker is an arbitrary script of answers, one for each call the module makes. */
module Broker {
  import opened Configuration

  // ---- The connection ----

  datatype ConnectOutcome = SocketFails | OpenFails | LoginFails | ChannelFails | Connects

  /** What the broker would answer to a call: are the pending frames fine, does it accept a message,
      does it accept a connection. */
  datatype Reply = Reply(framesOk: bool, publishOk: bool, connect: ConnectOutcome)

  type Script = nat -> Reply

  /** `conn`: null, created without a socket, or fully opened. */
  datatype Conn = NoConn | HalfOpen | Open

  /** A message the broker accepted: a fresh event, or one from the fallback queue. */
  datatype Sent = Direct(body: string) | Backlog(body: string)

  /** The connection, the number of broker calls made so far, and what the broker has accepted. */
  datatype Link = Link(conn: Conn, calls: nat, sent: seq<Sent>)

  datatype ConnectCode = Ok | SocketErr | ConnectionErr | AuthErr | ChannelErr | AlreadyConnected

  /** `amqpWaitFrame` */
  function WaitFrame(script: Script, link: Link): (Link, bool) {
    (link.(calls := link.calls + 1), script(link.calls).framesOk)
  }

  /** `amqpDisconnect`: reports failure if there is nothing to close. */
  function Disconnect(link: Link): (Link, bool) {
    (link.(conn := NoConn), link.conn != NoConn)
  }

  /** `amqpConnect`: a missing socket leaves the connection half open, later failures close it. */
  function Connect(script: Script, link: Link): (Link, ConnectCode) {
    if link.conn != NoConn then (link, AlreadyConnected)
    else
      var called := link.(calls := link.calls + 1);
      match script(link.calls).connect
      case SocketFails => (called.(conn := HalfOpen), SocketErr)
      case OpenFails => (called, ConnectionErr)
      case LoginFails => (called, AuthErr)
      case ChannelFails => (called, ChannelErr)
      case Connects => (called.(conn := Open), Ok)
  }

  /** `amqpPublish`: bad frames close the connection, a refused message does not. */
  function Publish(script: Script, link: Link, message: Sent): (Link, bool) {
    if link.conn == NoConn then (link, false)
    else
      var (waited, ok) := WaitFrame(script, link);
      if !ok then (Disconnect(waited).0, false)
      else
        var called := waited.(calls := waited.calls + 1);
        if script(waited.calls).publishOk then (called.(sent := called.sent + [message]), true)
        else (called, false)
  }

  // ---- The fallback queue ----

  /** How a stored event left the queue. */
  datatype Departure = Published(body: string) | Evicted(body: string)

  /** The stored list and the length the module believes it has. The last three fields are history:
      everything ever pushed, everything that left from the head, and how many events were stored
      into free space since the length was last read from the list. */
  datatype Queue = Queue(list: seq<string>, length: nat, pushed: seq<string>, departed: seq<Departure>, growth: nat)

  /** `syncFallbackStorageLen` */
  function Sync(q: Queue): Queue {
    q.(length := |q.list| % WORD, growth := 0)
  }

  /** `pushEventToStorage`: makes room if the believed length has reached a positive limit. The
      believed length itself is left alone. */
  function Store(q: Queue, limit: nat, body: string): Queue {
    var room := if limit > 0 && q.length >= limit then PopHead(q) else q.(growth := q.growth + 1);
    room.(list := room.list + [body], pushed := room.pushed + [body])
  }

  /** Popping an empty list does nothing. */
  function PopHead(q: Queue): Queue {
    if q.list == [] then q.(growth := q.growth + 1)
    else q.(list := q.list[1..], departed := q.departed + [Evicted(q.list[0])])
  }

  /** The head was published: the list shrinks and the believed length is decremented, wrapping. */
  function Shipped(q: Queue): Queue
    requires q.list != []
  {
    q.(list := q.list[1..], length := (q.length + WORD - 1) % WORD, departed := q.departed + [Published(q.list[0])])
  }

  /** `publishStoredEvents`: publishes from the head until the list is empty or a publish fails; the
      message of a failed publish goes back to the head. */
  function Drain(script: Script, link: Link, q: Queue): (Link, Queue, bool)
    decreases |q.list|
  {
    if q.list == [] then (link, q, true)
    else
      var (next, ok) := Publish(script, link, Backlog(q.list[0]));
      if ok then Drain(script, next, Shipped(q)) else (next, q, false)
  }

  /** `publishEvent`: a fresh event goes out directly, and then the stored ones; or it is stored. */
  function PublishEvent(script: Script, link: Link, q: Queue, limit: nat, body: string): (Link, Queue) {
    if link.conn == NoConn then (link, Store(q, limit, body))
    else
      var (next, ok) := Publish(script, link, Direct(body));
      if ok then
        var (after, drained, _) := Drain(script, next, q);
        (after, drained)
      else (next, Store(q, limit, body))
  }
}
