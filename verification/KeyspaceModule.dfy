/** The module with its global variables as fields (library.c, amqp_connection.c). Each method is the
    C function of that name and is proved to act on the fields as the state machine says. */
module KeyspaceModules {
  import opened Configuration
  import opened Forwarder
  import Broker
  import ArgumentCodec
  import Decimal
  import EventMessage
  import Matcher
  import StringArrays

  class KeyspaceModule {
    // The environment: the broker's answers, the numeral reader.
    const script: Broker.Script
    const strtol: Numeral

    // amqp_connection.c works on `conn`; `calls` counts the answers used up.
    var conn: Broker.Conn
    var calls: nat
    ghost var sent: seq<Broker.Sent>

    /** The AMQP settings, which C keeps in eight variables. */
    var settings: Settings

    var amqpConnectionEnabled: bool
    var heardBeatTimerId: nat
    var pendingTimers: set<nat>
    var nextTimerId: nat
    ghost var lazyArms: nat
    ghost var connects: nat

    var storage: seq<string>
    var fallbackStorageMaxSize: nat
    var fallbackStorageLen: nat
    ghost var pushed: seq<string>
    ghost var departed: seq<Broker.Departure>
    ghost var growth: nat

    const keyMaskArr: StringArrays.StringArray
    ghost var arrivals: seq<string>

    // ---- The fields as a state ----

    ghost predicate Valid()
      reads keyMaskArr
    {
      keyMaskArr.Valid() && keyMaskArr.capacity > 0
    }

    ghost function LinkState(): Broker.Link
      reads this`conn, this`calls, this`sent
    {
      Broker.Link(conn, calls, sent)
    }

    ghost function QueueState(): Broker.Queue
      reads this`storage, this`fallbackStorageLen, this`pushed, this`departed, this`growth
    {
      Broker.Queue(storage, fallbackStorageLen, pushed, departed, growth)
    }

    ghost function TimerState(): Timers
      reads this`amqpConnectionEnabled, this`heardBeatTimerId, this`pendingTimers, this`nextTimerId
      reads this`lazyArms, this`connects
    {
      Timers(amqpConnectionEnabled, heardBeatTimerId, pendingTimers, nextTimerId, lazyArms, connects)
    }

    ghost function ConfigState(): Config
      reads this`settings, this`fallbackStorageMaxSize, keyMaskArr, keyMaskArr.data
      requires Valid()
    {
      Config(settings, fallbackStorageMaxSize, keyMaskArr.Contents())
    }

    ghost function Current(): State
      reads this, keyMaskArr, keyMaskArr.data
      requires Valid()
    {
      State(ConfigState(), LinkState(), QueueState(), TimerState(), arrivals)
    }

    ghost function Outside(): World {
      World(script, strtol)
    }

    // ---- amqp_connection.c ----

    method AmqpWaitFrame() returns (ok: bool)
      modifies this`calls
      ensures (LinkState(), ok) == Broker.WaitFrame(script, old(LinkState()))
    {
      ok := script(calls).framesOk;
      calls := calls + 1;
    }

    method AmqpDisconnect() returns (ok: bool)
      modifies this`conn
      ensures (LinkState(), ok) == Broker.Disconnect(old(LinkState()))
    {
      if conn == Broker.NoConn {
        return false;
      }
      conn := Broker.NoConn;
      return true;
    }

    method AmqpConnect() returns (code: Broker.ConnectCode)
      modifies this`conn, this`calls
      ensures (LinkState(), code) == Broker.Connect(script, old(LinkState()))
      ensures code == Broker.AlreadyConnected <==> old(conn) != Broker.NoConn
      ensures code != Broker.AlreadyConnected ==>
        var outcome := script(old(calls)).connect;
        && (code == Broker.SocketErr <==> outcome == Broker.SocketFails)
        && (code == Broker.ConnectionErr <==> outcome == Broker.OpenFails)
        && (code == Broker.AuthErr <==> outcome == Broker.LoginFails)
        && (code == Broker.ChannelErr <==> outcome == Broker.ChannelFails)
        && (code == Broker.Ok <==> conn == Broker.Open)
    {
      if conn != Broker.NoConn {
        return Broker.AlreadyConnected;
      }
      var outcome := script(calls).connect;
      calls := calls + 1;
      conn := Broker.HalfOpen;
      if outcome == Broker.SocketFails {
        return Broker.SocketErr;
      }
      if outcome == Broker.OpenFails {
        var _ := AmqpDisconnect();
        return Broker.ConnectionErr;
      }
      if outcome == Broker.LoginFails {
        var _ := AmqpDisconnect();
        return Broker.AuthErr;
      }
      if outcome == Broker.ChannelFails {
        var _ := AmqpDisconnect();
        return Broker.ChannelErr;
      }
      conn := Broker.Open;
      return Broker.Ok;
    }

    method AmqpPublish(ghost message: Broker.Sent) returns (ok: bool)
      modifies this`conn, this`calls, this`sent
      ensures (LinkState(), ok) == Broker.Publish(script, old(LinkState()), message)
    {
      if conn != Broker.NoConn {
        var frames := AmqpWaitFrame();
        if !frames {
          var _ := AmqpDisconnect();
          return false;
        }
        ok := script(calls).publishOk;
        calls := calls + 1;
        if ok {
          sent := sent + [message];
        }
        return;
      }
      return false;
    }

    // ---- The fallback storage ----

    method PublishStoredEvents() returns (ok: bool)
      modifies this`conn, this`calls, this`sent, this`storage, this`fallbackStorageLen, this`departed
      ensures (LinkState(), QueueState(), ok) == Broker.Drain(script, old(LinkState()), old(QueueState()))
    {
      while storage != []
        invariant Broker.Drain(script, LinkState(), QueueState())
               == Broker.Drain(script, old(LinkState()), old(QueueState()))
        decreases |storage|
      {
        ghost var list := storage;
        var message := storage[0];
        storage := storage[1..];
        var published := AmqpPublish(Broker.Backlog(message));
        if !published {
          storage := [message] + storage;
          assert storage == list;
          return false;
        }
        fallbackStorageLen := (fallbackStorageLen + WORD - 1) % WORD;
        departed := departed + [Broker.Published(message)];
      }
      return true;
    }

    method SyncFallbackStorageLen()
      modifies this`fallbackStorageLen, this`growth
      ensures QueueState() == Broker.Sync(old(QueueState()))
    {
      fallbackStorageLen := |storage| % WORD;
      growth := 0;
    }

    method PushEventToStorage(messageString: string)
      modifies this`storage, this`pushed, this`departed, this`growth
      ensures QueueState() == Broker.Store(old(QueueState()), fallbackStorageMaxSize, messageString)
    {
      if fallbackStorageMaxSize > 0 && fallbackStorageLen >= fallbackStorageMaxSize && storage != [] {
        departed := departed + [Broker.Evicted(storage[0])];
        storage := storage[1..];
      } else {
        growth := growth + 1;
      }
      storage := storage + [messageString];
      pushed := pushed + [messageString];
    }

    method PublishEvent(db: int, event: string, keyname: string)
      modifies this`conn, this`calls, this`sent, this`storage, this`fallbackStorageLen, this`pushed, this`departed,
               this`growth, this`arrivals
      ensures (LinkState(), QueueState())
           == Broker.PublishEvent(script, old(LinkState()), old(QueueState()), fallbackStorageMaxSize,
                                  EventMessage.Body(db, event, keyname))
      ensures arrivals == old(arrivals) + [EventMessage.Body(db, event, keyname)]
    {
      var messageString := Decimal.Print(db) + "\n" + event + "\n" + keyname;
      arrivals := arrivals + [messageString];
      if conn != Broker.NoConn {
        var ok := AmqpPublish(Broker.Direct(messageString));
        if !ok {
          PushEventToStorage(messageString);
        } else {
          var _ := PublishStoredEvents();
        }
      } else {
        PushEventToStorage(messageString);
      }
    }

    // ---- Timers ----

    /** Redis hands out a fresh id and remembers the timer. */
    method CreateTimer()
      modifies this`heardBeatTimerId, this`pendingTimers, this`nextTimerId
      ensures TimerState() == Forwarder.CreateTimer(old(TimerState()))
    {
      pendingTimers := pendingTimers + {nextTimerId};
      heardBeatTimerId := nextTimerId;
      nextTimerId := nextTimerId + 1;
    }

    method Reconnect()
      modifies this`conn, this`calls, this`sent, this`storage, this`fallbackStorageLen, this`departed
      ensures (LinkState(), QueueState()) == Forwarder.Reconnect(script, old(LinkState()), old(QueueState()))
    {
      var code := AmqpConnect();
      if code == Broker.Ok {
        var _ := PublishStoredEvents();
      } else {
        var _ := AmqpDisconnect();
      }
    }

    /** `checkFramesAndHeartbeat` up to the new timer. */
    method CheckConnection()
      modifies this`conn, this`calls, this`sent, this`storage, this`fallbackStorageLen, this`departed
      ensures (LinkState(), QueueState()) == Forwarder.CheckConnection(script, old(LinkState()), old(QueueState()))
    {
      if conn != Broker.NoConn {
        var ok := AmqpWaitFrame();
        if !ok {
          var _ := AmqpDisconnect();
          Reconnect();
        }
      } else {
        Reconnect();
      }
    }

    /** Redis takes a due timer off its list and calls `checkFramesAndHeartbeat`. */
    method FireTimer(id: nat)
      modifies this`conn, this`calls, this`sent, this`storage, this`fallbackStorageLen, this`departed,
               this`heardBeatTimerId, this`pendingTimers, this`nextTimerId
      ensures (LinkState(), QueueState(), TimerState())
           == Forwarder.FireTimer(script, old(LinkState()), old(QueueState()), old(TimerState()), id)
    {
      pendingTimers := pendingTimers - {id};
      heardBeatTimerId := 0;
      if !amqpConnectionEnabled {
        return;
      }
      CheckConnection();
      CreateTimer();
    }

    method TimerFires(id: nat)
      requires Valid() && id in pendingTimers
      modifies this`conn, this`calls, this`sent, this`storage, this`fallbackStorageLen, this`departed,
               this`heardBeatTimerId, this`pendingTimers, this`nextTimerId
      ensures Current() == Forwarder.TimerFires(Outside(), old(Current()), id)
    {
      FireTimer(id);
      assert ConfigState() == old(ConfigState());
    }

    // ---- Keyspace events ----

    /** The first event of an enabled module. */
    method ArmLazily()
      modifies this`conn, this`calls, this`heardBeatTimerId, this`pendingTimers, this`nextTimerId, this`lazyArms
      ensures (LinkState(), TimerState()) == Forwarder.ArmLazily(script, old(LinkState()), old(TimerState()))
    {
      if heardBeatTimerId == 0 {
        var _ := AmqpConnect();
        CreateTimer();
        lazyArms := lazyArms + 1;
      }
    }

    /** The scan of the masks: the first one that lets the key through ends it. */
    method AnyMaskAdmits(key: string) returns (admitted: bool)
      requires Valid()
      ensures admitted <==> AnyAdmits(keyMaskArr.Contents(), key)
    {
      var klen := keyMaskArr.GetLength();
      var i := 0;
      while i < klen
        invariant i <= klen == |keyMaskArr.Contents()|
        invariant forall j | 0 <= j < i :: !Admits(keyMaskArr.Contents()[j], key)
      {
        var mask := keyMaskArr.GetElement(i);
        if mask == ALL {
          return true;
        } else {
          var matched, _ := Matcher.Match(mask, key);
          if matched {
            return true;
          }
        }
        i := i + 1;
      }
      return false;
    }

    method OnKeyspaceEvent(master: bool, db: int, event: string, key: string)
      requires Valid()
      modifies this`conn, this`calls, this`sent, this`storage, this`fallbackStorageLen, this`pushed, this`departed,
               this`growth, this`arrivals, this`heardBeatTimerId, this`pendingTimers, this`nextTimerId, this`lazyArms
      ensures Current() == Forwarder.OnKeyspaceEvent(Outside(), old(Current()), master, db, event, key)
    {
      if master && amqpConnectionEnabled {
        ArmLazily();
        var admitted := AnyMaskAdmits(key);
        assert QueueState() == old(QueueState());
        if admitted {
          PublishEvent(db, event, key);
        }
        assert ConfigState() == old(ConfigState());
      }
    }

    // ---- Configuration ----

    method SetField(i: nat, arg: string)
      requires Valid() && i < 9
      modifies this`settings, this`fallbackStorageMaxSize
      ensures ConfigState() == Configuration.SetField(strtol, old(ConfigState()), i, arg)
    {
      match i
      case 0 => settings := settings.(hostname := arg);
      case 1 => settings := settings.(port := strtol(arg) % 0x1_0000);
      case 2 => settings := settings.(username := arg);
      case 3 => settings := settings.(password := arg);
      case 4 => settings := settings.(heartbeat := strtol(arg) % 0x1_0000_0000);
      case 5 => settings := settings.(exchange := arg);
      case 6 => settings := settings.(routingKey := arg);
      case 7 => settings := settings.(deliveryMode := strtol(arg) % 0x100);
      case _ => fallbackStorageMaxSize := strtol(arg) % WORD;
    }

    /** One mask argument; `stop` if it was `ALL`. */
    method AddMask(arg: string) returns (stop: bool)
      requires Valid()
      modifies keyMaskArr, keyMaskArr.data
      ensures Valid() && (keyMaskArr.data == old(keyMaskArr.data) || fresh(keyMaskArr.data))
      ensures stop == (arg == ALL)
      ensures keyMaskArr.Contents() == if stop then [ALL] else old(keyMaskArr.Contents()) + [arg]
    {
      if arg == ALL {
        keyMaskArr.Clean();
        keyMaskArr.Add(ALL);
        return true;
      }
      keyMaskArr.Add(arg);
      return false;
    }

    /** The masks in `args`, from position `from`. */
    method AddMasksFrom(args: seq<string>, from: nat)
      requires Valid() && from <= |args|
      modifies keyMaskArr, keyMaskArr.data
      ensures Valid() && (keyMaskArr.data == old(keyMaskArr.data) || fresh(keyMaskArr.data))
      ensures keyMaskArr.Contents() == AddMasks(old(keyMaskArr.Contents()), args[from..])
    {
      var i := from;
      var stop := false;
      while i < |args| && !stop
        invariant from <= i <= |args| && Valid()
        invariant keyMaskArr.data == old(keyMaskArr.data) || fresh(keyMaskArr.data)
        invariant AddMasks(old(keyMaskArr.Contents()), args[from..])
               == if stop then keyMaskArr.Contents() else AddMasks(keyMaskArr.Contents(), args[i..])
        decreases |args| - i, !stop
      {
        assert args[i..][1..] == args[i + 1..];
        stop := AddMask(args[i]);
        i := i + 1;
      }
    }

    /** The settings below the masks, one argument after the other. */
    method SetFieldsFrom(args: seq<string>) returns (ok: bool)
      requires Valid()
      modifies this`settings, this`fallbackStorageMaxSize
      ensures ok == !BadMode(strtol, args)
      ensures ConfigState()
           == SetFields(strtol, old(ConfigState()), args, if !ok then 7 else if |args| < 9 then |args| else 9)
    {
      var fields := if |args| < 9 then |args| else 9;
      var i := 0;
      while i < fields
        invariant i <= fields
        invariant ConfigState() == SetFields(strtol, old(ConfigState()), args, i)
        invariant i > 7 ==> !BadMode(strtol, args)
      {
        if i == 7 && strtol(args[i]) % 0x100 > 2 {
          return false;
        }
        SetField(i, args[i]);
        i := i + 1;
      }
      return true;
    }

    /** `setupConfig` */
    method SetupConfig(argv: seq<string>) returns (ok: bool)
      requires Valid()
      modifies this`settings, this`fallbackStorageMaxSize, this`fallbackStorageLen, this`growth
      modifies keyMaskArr, keyMaskArr.data
      ensures Valid() && (keyMaskArr.data == old(keyMaskArr.data) || fresh(keyMaskArr.data))
      ensures (ConfigState(), ok) == SetConfig(strtol, old(ConfigState()), Rest(argv))
      ensures QueueState() == if ok then Broker.Sync(old(QueueState())) else old(QueueState())
    {
      var args := Rest(argv);
      if |args| > 9 {
        keyMaskArr.Clean();
      }
      ok := SetFieldsFrom(args);
      if !ok {
        return;
      }
      if |args| > 9 {
        AddMasksFrom(args, 9);
      }
      SyncFallbackStorageLen();
    }

    method ConfigCommand(argv: seq<string>) returns (ok: bool)
      requires Valid()
      modifies this`settings, this`fallbackStorageMaxSize, this`fallbackStorageLen, this`growth
      modifies keyMaskArr, keyMaskArr.data
      ensures Valid() && (keyMaskArr.data == old(keyMaskArr.data) || fresh(keyMaskArr.data))
      ensures (Current(), ok) == Forwarder.SetupConfig(Outside(), old(Current()), argv)
    {
      ok := SetupConfig(argv);
    }

    /** `stringArrayInit`, `setupDefaultConfig` and the state of a freshly loaded library. */
    constructor (script: Broker.Script, strtol: Numeral, stored: seq<string>)
      ensures Valid() && fresh(keyMaskArr) && fresh(keyMaskArr.data)
      ensures this.script == script && this.strtol == strtol && Current() == Initial(stored)
    {
      this.script, this.strtol := script, strtol;
      conn, calls, sent := Broker.NoConn, 0, [];
      settings := Settings("127.0.0.1", 5627, "guest", "guest", 30, "amq.direct", "redis_keyspace_events", 1);
      amqpConnectionEnabled, heardBeatTimerId, pendingTimers, nextTimerId := false, 0, {}, 1;
      lazyArms, connects := 0, 0;
      storage, fallbackStorageMaxSize, fallbackStorageLen := stored, 10_000_000, 0;
      pushed, departed, growth := stored, [], 0;
      keyMaskArr := new StringArrays.StringArray(8);
      arrivals := [];
    }

    method OnLoad(argv: seq<string>, ghost stored: seq<string>) returns (ok: bool)
      requires Valid() && Current() == Initial(stored)
      modifies this, keyMaskArr, keyMaskArr.data
      ensures Valid() && (keyMaskArr.data == old(keyMaskArr.data) || fresh(keyMaskArr.data))
      ensures (Current(), ok) == Loaded(Outside(), argv, stored)
    {
      ok := ConfigCommand(argv);
      if !ok {
        return;
      }
      var masks := keyMaskArr.GetLength();
      if masks > 0 {
        amqpConnectionEnabled := true;
      }
    }

    // ---- Commands ----

    method ConnectAndArm()
      modifies this`conn, this`calls, this`heardBeatTimerId, this`pendingTimers, this`nextTimerId,
               this`amqpConnectionEnabled, this`connects
      ensures (LinkState(), TimerState()) == Forwarder.ConnectAndArm(script, old(LinkState()), old(TimerState()))
    {
      var code := AmqpConnect();
      if code != Broker.Ok {
        return;
      }
      CreateTimer();
      amqpConnectionEnabled := true;
      connects := connects + 1;
    }

    method ConnectAmqpCommand(argv: seq<string>)
      requires Valid()
      modifies this, keyMaskArr, keyMaskArr.data
      ensures Valid() && (keyMaskArr.data == old(keyMaskArr.data) || fresh(keyMaskArr.data))
      ensures Current() == ConnectAmqp(Outside(), old(Current()), argv)
    {
      var ok := ConfigCommand(argv);
      ghost var configured := Current();
      if ok {
        ConnectAndArm();
        assert Current() == configured.(link := LinkState(), timers := TimerState());
      }
    }

    method Disarm()
      modifies this`amqpConnectionEnabled, this`heardBeatTimerId, this`pendingTimers, this`conn
      ensures TimerState() == Forwarder.Disarm(old(TimerState()))
      ensures LinkState() == Broker.Disconnect(old(LinkState())).0
    {
      amqpConnectionEnabled := false;
      if heardBeatTimerId != 0 {
        pendingTimers := pendingTimers - {heardBeatTimerId};
        heardBeatTimerId := 0;
      }
      var _ := AmqpDisconnect();
    }

    method DisconnectAmqpCommand()
      requires Valid()
      modifies this`amqpConnectionEnabled, this`heardBeatTimerId, this`pendingTimers, this`conn
      ensures Current() == DisconnectAmqp(old(Current()))
    {
      Disarm();
      assert ConfigState() == old(ConfigState());
    }

    method SetupFallbackStorageSizeCommand(argv: seq<string>)
      requires Valid()
      modifies this`fallbackStorageMaxSize, this`fallbackStorageLen, this`growth
      ensures Current() == SetStorageSize(Outside(), old(Current()), argv)
    {
      if |argv| != 2 {
        return;
      }
      fallbackStorageMaxSize := strtol(argv[1]) % WORD;
      SyncFallbackStorageLen();
    }

    /** The command on this node, by the handler Redis has registered for it. */
    method Execute(kind: Kind, argv: seq<string>)
      requires Valid()
      modifies this, keyMaskArr, keyMaskArr.data
      ensures Valid() && (keyMaskArr.data == old(keyMaskArr.data) || fresh(keyMaskArr.data))
      ensures Current() == Forwarder.Execute(Outside(), old(Current()), kind, argv)
    {
      match kind
      case ConnectCmd => ConnectAmqpCommand(argv);
      case DisconnectCmd => DisconnectAmqpCommand();
      case ConfigCmd =>
        var _ := ConfigCommand(argv);
      case StorageSizeCmd => SetupFallbackStorageSizeCommand(argv);
      case MaskCleanCmd => keyMaskArr.Clean();
      case MaskAddCmd =>
        assert argv[0..] == argv;
        AddMasksFrom(argv, 0);
      case MaskSetCmd =>
        assert argv[0..] == argv;
        keyMaskArr.Clean();
        AddMasksFrom(argv, 0);
    }

    /** A command typed at this node of a cluster: broadcast, then executed. */
    method RedisCommand(kind: Kind, argv: seq<string>) returns (broadcast: string)
      requires Valid()
      modifies this, keyMaskArr, keyMaskArr.data
      ensures Valid() && (keyMaskArr.data == old(keyMaskArr.data) || fresh(keyMaskArr.data))
      ensures broadcast == ArgumentCodec.Joined(argv)
      ensures Current() == Forwarder.Execute(Outside(), old(Current()), kind, argv)
    {
      broadcast := ArgumentCodec.Serialize(argv);
      Execute(kind, argv);
    }

    method ClusterMessageReceiver(messageKind: int, payload: string)
      requires Valid()
      modifies this, keyMaskArr, keyMaskArr.data
      ensures Valid() && (keyMaskArr.data == old(keyMaskArr.data) || fresh(keyMaskArr.data))
      ensures Current() == Receive(Outside(), old(Current()), messageKind, payload)
    {
      if messageKind != COMMAND_MESSAGE {
        return;
      }
      var argv := ArgumentCodec.Parse(payload);
      if |argv| > 0 {
        var branch := Dispatch(argv[0]);
        if branch != [] {
          Execute(branch[0], argv);
        }
      }
    }
  }
}
