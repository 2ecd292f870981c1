/** What the module is set up to do after loading, and after the commands that only change settings. */
module Setup {
  import opened Configuration
  import opened Broker
  import opened Forwarder
  import opened ConnectionProperties
  import EventMessage

  // ---- Loading ----

  /** Loading is accepted unless the delivery mode is above 2. It starts from the defaults, reads the length of the list
      that Redis holds, and neither connects nor starts a timer. Forwarding is on exactly if masks were given. */
  lemma LoadedState(w: World, argv: seq<string>, stored: seq<string>)
    ensures var (s, ok) := Loaded(w, argv, stored);
      && (ok <==> !(|argv| > 8 && w.strtol(argv[8]) % 0x100 > 2))
      && s.config == SetConfig(w.strtol, DEFAULTS, Rest(argv)).0
      && s.link == Link(NoConn, 0, []) && s.arrivals == []
      && s.queue.list == stored && s.queue.length == (if ok then |stored| % WORD else 0)
      && s.timers.current == 0 && s.timers.pending == {}
      && (s.timers.enabled <==> ok && |argv| > 10)
  {
    ConfiguredMasks(w.strtol, DEFAULTS, Rest(argv));
    if |Rest(argv)| > 9 {
      AddLeavesMasksIff([], Rest(argv)[9..]);
    }
  }

  /** After an accepted load, the first event on a master is forwarded exactly if a mask among the arguments admits its
      key. */
  lemma FirstEventIsForwardedIff(w: World, argv: seq<string>, stored: seq<string>, db: int, event: string, key: string)
    requires Loaded(w, argv, stored).1
    ensures OnKeyspaceEvent(w, Loaded(w, argv, stored).0, true, db, event, key).arrivals
         == if |argv| > 10 && AnyAdmits(argv[10..], key) then [EventMessage.Body(db, event, key)] else []
  {
    LoadedState(w, argv, stored);
    ConfiguredMasks(w.strtol, DEFAULTS, Rest(argv));
    if |argv| > 10 {
      assert Rest(argv)[9..] == argv[10..];
      AddIsUnion([], argv[10..], key);
      assert !AnyAdmits([], key);
    }
  }

  /** All nine settings given, and a proper delivery mode: nothing of the defaults remains. */
  lemma AllSettingsGiven(strtol: Numeral, c: Config, args: seq<string>)
    requires |args| >= 9 && strtol(args[7]) % 0x100 <= 2
    ensures var after := SetConfig(strtol, c, args).0;
      && after.settings == Settings(args[0], strtol(args[1]) % 0x1_0000, args[2], args[3],
                                    strtol(args[4]) % 0x1_0000_0000, args[5], args[6], strtol(args[7]) % 0x100)
      && after.storageLimit == strtol(args[8]) % WORD
  {
    ConfiguredByPosition(strtol, c, args);
  }

  const DOCUMENTED_LINE: seq<string> :=
    ["xe", "127.0.0.1", "5672", "user", "pass", "20", "exchange_name", "routing_key", "2", "10000000"]

  /** The documented load line, without and with masks. */
  lemma DocumentedLoadLine(w: World, stored: seq<string>, masks: seq<string>)
    requires w.strtol("5672") == 5672 && w.strtol("20") == 20 && w.strtol("2") == 2
    requires w.strtol("10000000") == 10000000
    ensures var (s, ok) := Loaded(w, DOCUMENTED_LINE + masks, stored);
      && ok && (s.timers.enabled <==> masks != [])
      && s.config.settings == Settings("127.0.0.1", 5672, "user", "pass", 20, "exchange_name", "routing_key", 2)
      && s.config.storageLimit == 10_000_000
  {
    var line := DOCUMENTED_LINE;
    var argv := line + masks;
    assert forall i | 0 <= i < 10 :: argv[i] == line[i];
    LoadedState(w, argv, stored);
    AllSettingsGiven(w.strtol, DEFAULTS, Rest(argv));
  }

  /** Loaded without settings, the module has the documented defaults, but for the port, and forwards nothing. */
  lemma DefaultsRemain(w: World, argv: seq<string>, stored: seq<string>)
    requires |argv| <= 1
    ensures var s := Loaded(w, argv, stored).0;
      && s.config == Config(Settings("127.0.0.1", 5627, "guest", "guest", 30, "amq.direct", "redis_keyspace_events", 1),
                            10_000_000, [])
      && !s.timers.enabled
  {
    LoadedState(w, argv, stored);
  }

  /** The documented default port is 5672. The port after loading is that one exactly if it was given: without a port
      argument it is 5627. */
  lemma DocumentedPortIff(w: World, argv: seq<string>, stored: seq<string>)
    ensures var port := Loaded(w, argv, stored).0.config.settings.port;
      && (port == 5672 <==> |argv| > 2 && w.strtol(argv[2]) % 0x1_0000 == 5672)
      && (|argv| <= 2 ==> port == 5627)
  {
    LoadedState(w, argv, stored);
    ConfiguredByPosition(w.strtol, DEFAULTS, Rest(argv));
  }

  /** Loaded without masks, the module is documented to forward nothing until masks are added. Adding them is not
      enough: without a connect command nothing is ever sent or stored, whatever masks a run of commands adds. */
  lemma MasksAloneForwardNothing(w: World, argv: seq<string>, stored: seq<string>, events: seq<Event>)
    requires |argv| <= 10
    requires forall i | 0 <= i < |events| :: NotConnect(events[i])
    ensures var s := Loaded(w, argv, stored).0;
      NothingHappened(s, Run(w, s, events)) && Run(w, s, events).link.sent == []
  {
    LoadedState(w, argv, stored);
    RunStaysSilent(w, Loaded(w, argv, stored).0, events);
  }

  // ---- Commands that only change settings ----

  /** `config_set` touches the configuration and the believed length; connection, timers and list stay as they are. */
  lemma ConfigCommandOutcome(w: World, s: State, argv: seq<string>)
    ensures var after, (config, ok) := Execute(w, s, ConfigCmd, argv), SetConfig(w.strtol, s.config, Rest(argv));
      && after == s.(config := config, queue := after.queue)
      && after.queue == s.queue.(length := if ok then |s.queue.list| % WORD else s.queue.length,
                                 growth := after.queue.growth)
  {
  }

  /** `fallback_storage_size_set` with one number changes the limit and the believed length, and otherwise nothing. */
  lemma StorageSizeOutcome(w: World, s: State, argv: seq<string>)
    ensures var after := Execute(w, s, StorageSizeCmd, argv);
      if |argv| != 2 then after == s
      else
        && after == s.(config := after.config, queue := after.queue)
        && after.config == s.config.(storageLimit := w.strtol(argv[1]) % WORD)
        && after.queue == s.queue.(length := |s.queue.list| % WORD, growth := after.queue.growth)
  {
  }

  /** The mask commands change the masks alone. They take every argument for a mask, the command name among them. */
  lemma MaskCommandOutcome(w: World, s: State, argv: seq<string>)
    ensures Execute(w, s, MaskCleanCmd, argv) == s.(config := s.config.(masks := []))
    ensures var after := Execute(w, s, MaskAddCmd, argv);
      && after == s.(config := s.config.(masks := after.config.masks))
      && forall key :: AnyAdmits(after.config.masks, key) <==> AnyAdmits(s.config.masks, key) || AnyAdmits(argv, key)
    ensures var after := Execute(w, s, MaskSetCmd, argv);
      && after == s.(config := s.config.(masks := after.config.masks))
      && forall key :: AnyAdmits(after.config.masks, key) <==> AnyAdmits(argv, key)
  {
    forall key
      ensures AnyAdmits(AddMasks(s.config.masks, argv), key) <==> AnyAdmits(s.config.masks, key) || AnyAdmits(argv, key)
      ensures AnyAdmits(AddMasks([], argv), key) <==> AnyAdmits(argv, key)
    {
      AddIsUnion(s.config.masks, argv, key);
      AddIsUnion([], argv, key);
    }
  }
}
