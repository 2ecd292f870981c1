/** The module as a state machine (library.c): every command, keyspace event, timer and cluster message
    as a function of the state. */
module Forwarder {
  import opened Configuration
  import opened Broker
  import ArgumentCodec
  import EventMessage

  // ---- State ----

  /** Forwarding enabled, `heardBeatTimerId` (0 for none), the timers Redis holds for the module, and
      the next id it will hand out. The last two fields are history: how often an event armed the
      timer, and how many connect commands succeeded. */
  datatype Timers = Timers(enabled: bool, current: nat, pending: set<nat>, next: nat, lazyArms: nat, connects: nat)

  /** `arrivals` is history: the bodies of all events that passed the masks. */
  datatype State = State(config: Config, link: Link, queue: Queue, timers: Timers, arrivals: seq<string>)

  /** What the module cannot see: the broker, and how numerals are read. */
  datatype World = World(script: Script, strtol: Numeral)

  // ---- Timers ----

  function CreateTimer(t: Timers): Timers {
    t.(current := t.next, pending := t.pending + {t.next}, next := t.next + 1)
  }

  // ---- Commands ----

  datatype Kind = ConnectCmd | DisconnectCmd | ConfigCmd | StorageSizeCmd | MaskCleanCmd | MaskAddCmd | MaskSetCmd

  function Name(kind: Kind): string {
    match kind
    case ConnectCmd => "key_evt_amqp.connect"
    case DisconnectCmd => "key_evt_amqp.disconnect"
    case ConfigCmd => "key_evt_amqp.config_set"
    case StorageSizeCmd => "key_evt_amqp.fallback_storage_size_set"
    case MaskCleanCmd => "key_evt_amqp.keymask_clean"
    case MaskAddCmd => "key_evt_amqp.keymask_add"
    case MaskSetCmd => "key_evt_amqp.keymask_set"
  }

  /** The arguments after the command name. */
  function Rest(argv: seq<string>): seq<string> {
    if argv == [] then [] else argv[1..]
  }

  /** `setupConfig`: the believed length is read again unless the arguments were rejected. */
  function SetupConfig(w: World, s: State, argv: seq<string>): (State, bool) {
    var (config, ok) := SetConfig(w.strtol, s.config, Rest(argv));
    if ok then (s.(config := config, queue := Sync(s.queue)), true) else (s.(config := config), false)
  }

  /** Opens the connection and creates a timer, which does not replace one that is already pending. */
  function ConnectAndArm(script: Script, link: Link, t: Timers): (Link, Timers) {
    var (connected, code) := Connect(script, link);
    if code != Ok then (connected, t)
    else
      var armed := CreateTimer(t);
      (connected, armed.(enabled := true, connects := armed.connects + 1))
  }

  /** `connectAmqpCommand` */
  function ConnectAmqp(w: World, s: State, argv: seq<string>): State {
    var (configured, ok) := SetupConfig(w, s, argv);
    if !ok then configured
    else
      var (link, timers) := ConnectAndArm(w.script, s.link, s.timers);
      configured.(link := link, timers := timers)
  }

  /** Stops the current timer only. */
  function Disarm(t: Timers): Timers {
    t.(enabled := false, current := 0, pending := if t.current != 0 then t.pending - {t.current} else t.pending)
  }

  /** `disconnectAmqpCommand` */
  function DisconnectAmqp(s: State): State {
    s.(timers := Disarm(s.timers), link := Disconnect(s.link).0)
  }

  /** `setupFallbackStorageSizeCommand` */
  function SetStorageSize(w: World, s: State, argv: seq<string>): State {
    if |argv| != 2 then s
    else s.(config := s.config.(storageLimit := w.strtol(argv[1]) % WORD), queue := Sync(s.queue))
  }

  function SetMasks(s: State, masks: seq<string>): State {
    s.(config := s.config.(masks := masks))
  }

  /** A command executed on this node. `argv[0]` is the name as the client spelled it. */
  function Execute(w: World, s: State, kind: Kind, argv: seq<string>): State {
    match kind
    case ConnectCmd => ConnectAmqp(w, s, argv)
    case DisconnectCmd => DisconnectAmqp(s)
    case ConfigCmd => SetupConfig(w, s, argv).0
    case StorageSizeCmd => SetStorageSize(w, s, argv)
    case MaskCleanCmd => SetMasks(s, [])
    case MaskAddCmd => SetMasks(s, AddMasks(s.config.masks, argv))
    case MaskSetCmd => SetMasks(s, AddMasks([], argv))
  }

  const COMMAND_MESSAGE: int := 191

  /** The branch of `clusterMessageReceiver` a command name selects. The branch meant for keymask_set
      repeats the name of keymask_add, so keymask_set selects none. */
  function Dispatch(command: string): (kind: seq<Kind>) {
    if command == Name(ConnectCmd) then [ConnectCmd]
    else if command == Name(DisconnectCmd) then [DisconnectCmd]
    else if command == Name(ConfigCmd) then [ConfigCmd]
    else if command == Name(StorageSizeCmd) then [StorageSizeCmd]
    else if command == Name(MaskCleanCmd) then [MaskCleanCmd]
    else if command == Name(MaskAddCmd) then [MaskAddCmd]
    else if command == Name(MaskAddCmd) then [MaskSetCmd]
    else []
  }

  /** `clusterMessageReceiver` */
  function Receive(w: World, s: State, kind: int, payload: string): State {
    var argv := ArgumentCodec.Split(payload);
    if kind != COMMAND_MESSAGE || argv == [] || Dispatch(argv[0]) == [] then s
    else Execute(w, s, Dispatch(argv[0])[0], argv)
  }

  // ---- Events and timers ----

  /** The first event of an enabled module opens the connection and arms the timer. */
  function ArmLazily(script: Script, link: Link, t: Timers): (Link, Timers) {
    if t.current != 0 then (link, t)
    else
      var armed := CreateTimer(t);
      (Connect(script, link).0, armed.(lazyArms := armed.lazyArms + 1))
  }

  /** `onKeyspaceEvent` */
  ghost function OnKeyspaceEvent(w: World, s: State, master: bool, db: int, event: string, key: string): State {
    if !(master && s.timers.enabled) then s
    else
      var (link, timers) := ArmLazily(w.script, s.link, s.timers);
      if !AnyAdmits(s.config.masks, key) then s.(link := link, timers := timers)
      else
        var body := EventMessage.Body(db, event, key);
        var (after, queue) := PublishEvent(w.script, link, s.queue, s.config.storageLimit, body);
        s.(link := after, queue := queue, timers := timers, arrivals := s.arrivals + [body])
  }

  /** Reconnecting from the timer: drain after success, close whatever is left after failure. */
  function Reconnect(script: Script, link: Link, q: Queue): (Link, Queue) {
    var (connected, code) := Connect(script, link);
    if code == Ok then
      var (after, rest, _) := Drain(script, connected, q);
      (after, rest)
    else (Disconnect(connected).0, q)
  }

  /** The connection check of an enabled module. */
  function CheckConnection(script: Script, link: Link, q: Queue): (Link, Queue) {
    if link.conn == NoConn then Reconnect(script, link, q)
    else
      var (waited, ok) := WaitFrame(script, link);
      if ok then (waited, q) else Reconnect(script, Disconnect(waited).0, q)
  }

  /** Redis takes a due timer off its list and calls `checkFramesAndHeartbeat`. */
  function FireTimer(script: Script, link: Link, q: Queue, t: Timers, id: nat): (Link, Queue, Timers) {
    var fired := t.(pending := t.pending - {id}, current := 0);
    if !fired.enabled then (link, q, fired)
    else
      var (checked, rest) := CheckConnection(script, link, q);
      (checked, rest, CreateTimer(fired))
  }

  function TimerFires(w: World, s: State, id: nat): State {
    if id !in s.timers.pending then s
    else
      var (link, queue, timers) := FireTimer(w.script, s.link, s.queue, s.timers, id);
      s.(link := link, queue := queue, timers := timers)
  }

  // ---- Runs ----

  datatype Event =
    | Keyspace(master: bool, db: int, event: string, key: string)
    | Timer(id: nat)
    | Command(kind: Kind, argv: seq<string>)
    | Message(messageKind: int, payload: string)

  ghost function Step(w: World, s: State, e: Event): State {
    match e
    case Keyspace(master, db, event, key) => OnKeyspaceEvent(w, s, master, db, event, key)
    case Timer(id) => TimerFires(w, s, id)
    case Command(kind, argv) => Execute(w, s, kind, argv)
    case Message(kind, payload) => Receive(w, s, kind, payload)
  }

  ghost function Run(w: World, s: State, events: seq<Event>): State
    decreases |events|
  {
    if events == [] then s else Run(w, Step(w, s, events[0]), events[1..])
  }

  /** Before the load arguments are read: the defaults, and the list found in Redis. */
  function Initial(stored: seq<string>): State {
    State(DEFAULTS, Link(NoConn, 0, []), Queue(stored, 0, stored, [], 0), Timers(false, 0, {}, 1, 0, 0), [])
  }

  /** `RedisModule_OnLoad` with the load arguments, the first of which selects event types. Forwarding
      starts enabled if there are masks. */
  function Loaded(w: World, argv: seq<string>, stored: seq<string>): (State, bool) {
    var (s, ok) := SetupConfig(w, Initial(stored), argv);
    if ok then (s.(timers := s.timers.(enabled := s.config.masks != [])), true) else (s, false)
  }
}
