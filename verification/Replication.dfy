/** One command replicated over the cluster bus: what it does to the configuration of the node it was typed at and
    of a node that receives its broadcast. */
module Replication {
  import opened Configuration
  import opened Broker
  import opened Forwarder
  import ArgumentCodec

  /** What a command does to the configuration. */
  function ConfigAfter(strtol: Numeral, c: Config, kind: Kind, argv: seq<string>): Config {
    match kind
    case ConnectCmd => SetConfig(strtol, c, Rest(argv)).0
    case ConfigCmd => SetConfig(strtol, c, Rest(argv)).0
    case DisconnectCmd => c
    case StorageSizeCmd => if |argv| != 2 then c else c.(storageLimit := strtol(argv[1]) % WORD)
    case MaskCleanCmd => c.(masks := [])
    case MaskAddCmd => c.(masks := AddMasks(c.masks, argv))
    case MaskSetCmd => c.(masks := AddMasks([], argv))
  }

  lemma ExecuteConfig(w: World, s: State, kind: Kind, argv: seq<string>)
    ensures Execute(w, s, kind, argv).config == ConfigAfter(w.strtol, s.config, kind, argv)
  {
  }

  // ---- One command ----

  /** A branch of the receiver is selected by its own registered name and no other; no name selects that of
      keymask_set. */
  lemma DispatchIff(command: string, kind: Kind)
    ensures Dispatch(command) == [kind] <==> command == Name(kind) && kind != MaskSetCmd
    ensures Dispatch(command) == [] <==> forall k: Kind :: k != MaskSetCmd ==> command != Name(k)
  {
    if Dispatch(command) == [] {
      assert command != Name(ConnectCmd) && command != Name(DisconnectCmd) && command != Name(ConfigCmd);
      assert command != Name(StorageSizeCmd) && command != Name(MaskCleanCmd) && command != Name(MaskAddCmd);
    }
  }

  /** The registered names, as documented. */
  lemma DocumentedNames()
    ensures Dispatch("key_evt_amqp.connect") == [ConnectCmd]
    ensures Dispatch("key_evt_amqp.disconnect") == [DisconnectCmd]
    ensures Dispatch("key_evt_amqp.config_set") == [ConfigCmd]
    ensures Dispatch("key_evt_amqp.fallback_storage_size_set") == [StorageSizeCmd]
    ensures Dispatch("key_evt_amqp.keymask_clean") == [MaskCleanCmd]
    ensures Dispatch("key_evt_amqp.keymask_add") == [MaskAddCmd]
    ensures Dispatch("key_evt_amqp.keymask_set") == []
  {
    DispatchOfName(ConnectCmd);
    DispatchOfName(DisconnectCmd);
    DispatchOfName(ConfigCmd);
    DispatchOfName(StorageSizeCmd);
    DispatchOfName(MaskCleanCmd);
    DispatchOfName(MaskAddCmd);
    DispatchOfName(MaskSetCmd);
  }

  /** A message of another type, an empty one and an unknown name change nothing. */
  lemma OtherMessagesAreIgnored(w: World, s: State, kind: int, payload: string)
    requires kind != 191 || payload == "" || forall k: Kind :: ArgumentCodec.Split(payload)[0] != Name(k)
    ensures Receive(w, s, kind, payload) == s
  {
    if kind == 191 && payload != "" {
      DispatchIff(ArgumentCodec.Split(payload)[0], ConnectCmd);
    }
  }

  /** The client spelled the command by its registered name, and the wire form loses nothing. */
  ghost predicate Faithful(kind: Kind, argv: seq<string>) {
    ArgumentCodec.Transmissible(argv) && argv[0] == Name(kind)
  }

  /** The message of a transmissible command selects the branch of its first argument. */
  lemma ReceiveSplit(w: World, s: State, argv: seq<string>)
    requires ArgumentCodec.Transmissible(argv)
    ensures Receive(w, s, COMMAND_MESSAGE, ArgumentCodec.Joined(argv))
         == if Dispatch(argv[0]) == [] then s else Execute(w, s, Dispatch(argv[0])[0], argv)
  {
    ArgumentCodec.RoundTrip(argv);
  }

  lemma DispatchOfName(kind: Kind)
    ensures Dispatch(Name(kind)) == if kind == MaskSetCmd then [] else [kind]
  {
    match kind
    case ConnectCmd =>
    case DisconnectCmd =>
    case ConfigCmd =>
    case StorageSizeCmd =>
    case MaskCleanCmd =>
    case MaskAddCmd =>
    case MaskSetCmd =>
  }

  lemma ReceiveFaithful(w: World, s: State, kind: Kind, argv: seq<string>)
    requires Faithful(kind, argv)
    ensures Receive(w, s, COMMAND_MESSAGE, ArgumentCodec.Joined(argv))
         == if kind == MaskSetCmd then s else Execute(w, s, kind, argv)
  {
    ReceiveSplit(w, s, argv);
    DispatchOfName(kind);
  }

  /** Two nodes with equal configurations agree after a command and its broadcast, except that
      keymask_set changes only the sender; then they agree just if it changed nothing. */
  lemma NodesAgreeIff(w1: World, s1: State, w2: World, s2: State, kind: Kind, argv: seq<string>)
    requires w1.strtol == w2.strtol && s1.config == s2.config && Faithful(kind, argv)
    ensures Execute(w1, s1, kind, argv).config == Receive(w2, s2, COMMAND_MESSAGE, ArgumentCodec.Joined(argv)).config
       <==> kind != MaskSetCmd || AddMasks([], argv) == s1.config.masks
  {
    ReceiveFaithful(w2, s2, kind, argv);
    ExecuteConfig(w1, s1, kind, argv);
    ExecuteConfig(w2, s2, kind, argv);
  }

  /** For example, setting a mask on a fresh cluster leaves the other nodes without one. */
  lemma MaskSetDiverges(w: World, s: State)
    requires s.config.masks == []
    ensures var argv := [Name(MaskSetCmd), "m"];
            Execute(w, s, MaskSetCmd, argv).config.masks == argv &&
            Receive(w, s, COMMAND_MESSAGE, ArgumentCodec.Joined(argv)).config.masks == []
  {
    var argv := [Name(MaskSetCmd), "m"];
    assert ArgumentCodec.Transmissible(argv);
    ReceiveFaithful(w, s, MaskSetCmd, argv);
    assert argv[1..] == ["m"] && ["m"][1..] == [];
    assert AddMasks([], argv) == AddMasks([argv[0]], ["m"]) == AddMasks([argv[0], "m"], []);
  }

  /** A name that the server resolved to a command but that is not spelled as registered here is
      executed by the sender alone. */
  lemma OtherSpellingIsIgnored(w: World, s: State, argv: seq<string>)
    requires ArgumentCodec.Transmissible(argv) && forall kind: Kind :: argv[0] != Name(kind)
    ensures Receive(w, s, COMMAND_MESSAGE, ArgumentCodec.Joined(argv)) == s
  {
    ArgumentCodec.RoundTrip(argv);
    DispatchIff(argv[0], ConnectCmd);
  }
}
