/** The mask list as a set of accepted keys, over every run of commands. */
module MaskProperties {
  import opened Configuration
  import opened Broker
  import opened Forwarder
  import ArgumentCodec
  import EventMessage
  import Decimal
  import Matcher

  /** A set of keys. */
  type Filter = string -> bool

  /** The filter after a configuration command: unchanged without mask arguments, empty if the
      delivery mode was rejected, otherwise what the mask arguments admit. */
  ghost function ConfiguredFilter(strtol: Numeral, f: Filter, args: seq<string>): Filter {
    if |args| <= 9 then f
    else if BadMode(strtol, args) then key => false
    else key => AnyAdmits(args[9..], key)
  }

  /** The documented meaning of the commands, except that keymask_add and keymask_set add their own name
      as a mask too. */
  ghost function FilterAfter(strtol: Numeral, f: Filter, kind: Kind, argv: seq<string>): Filter {
    match kind
    case ConnectCmd => ConfiguredFilter(strtol, f, Rest(argv))
    case ConfigCmd => ConfiguredFilter(strtol, f, Rest(argv))
    case MaskCleanCmd => key => false
    case MaskAddCmd => key => f(key) || AnyAdmits(argv, key)
    case MaskSetCmd => key => AnyAdmits(argv, key)
    case DisconnectCmd => f
    case StorageSizeCmd => f
  }

  ghost function FilterStep(strtol: Numeral, f: Filter, e: Event): Filter {
    match e
    case Command(kind, argv) => FilterAfter(strtol, f, kind, argv)
    case Message(kind, payload) =>
      var argv := ArgumentCodec.Split(payload);
      if kind != COMMAND_MESSAGE || argv == [] || Dispatch(argv[0]) == [] then f
      else FilterAfter(strtol, f, Dispatch(argv[0])[0], argv)
    case _ => f
  }

  ghost function FilterRun(strtol: Numeral, f: Filter, events: seq<Event>): Filter
    decreases |events|
  {
    if events == [] then f else FilterRun(strtol, FilterStep(strtol, f, events[0]), events[1..])
  }

  /** The masks accept exactly the keys of the filter. */
  ghost predicate Refines(s: State, f: Filter) {
    forall key :: AnyAdmits(s.config.masks, key) <==> f(key)
  }

  lemma ExecuteRefines(w: World, s: State, f: Filter, kind: Kind, argv: seq<string>)
    requires Refines(s, f)
    ensures Refines(Execute(w, s, kind, argv), FilterAfter(w.strtol, f, kind, argv))
  {
    var after, filter := Execute(w, s, kind, argv), FilterAfter(w.strtol, f, kind, argv);
    ConfiguredMasks(w.strtol, s.config, Rest(argv));
    forall key ensures AnyAdmits(after.config.masks, key) <==> filter(key) {
      AddIsUnion(s.config.masks, argv, key);
      AddIsUnion([], argv, key);
      if |Rest(argv)| > 9 {
        AddIsUnion([], Rest(argv)[9..], key);
      }
    }
  }

  lemma EventsLeaveConfig(w: World, s: State, e: Event)
    requires e.Keyspace? || e.Timer?
    ensures Step(w, s, e).config == s.config
  {
  }

  lemma StepRefines(w: World, s: State, f: Filter, e: Event)
    requires Refines(s, f)
    ensures Refines(Step(w, s, e), FilterStep(w.strtol, f, e))
  {
    match e
    case Command(kind, argv) => ExecuteRefines(w, s, f, kind, argv);
    case Message(kind, payload) =>
      var argv := ArgumentCodec.Split(payload);
      if kind == COMMAND_MESSAGE && argv != [] && Dispatch(argv[0]) != [] {
        ExecuteRefines(w, s, f, Dispatch(argv[0])[0], argv);
      }
    case _ => EventsLeaveConfig(w, s, e);
  }

  /** After every run the mask list accepts exactly the keys of the filter its commands describe. */
  lemma {:induction false} RunRefines(w: World, s: State, f: Filter, events: seq<Event>)
    requires Refines(s, f)
    ensures Refines(Run(w, s, events), FilterRun(w.strtol, f, events))
    decreases |events|
  {
    if events != [] {
      StepRefines(w, s, f, events[0]);
      RunRefines(w, Step(w, s, events[0]), FilterStep(w.strtol, f, events[0]), events[1..]);
    }
  }

  /** An event of an enabled master is forwarded exactly when the filter accepts its key, and once. */
  lemma ForwardedIffAccepted(w: World, s: State, f: Filter, events: seq<Event>, db: int, event: string, key: string)
    requires Refines(s, f) && Run(w, s, events).timers.enabled
    ensures var before := Run(w, s, events);
            OnKeyspaceEvent(w, before, true, db, event, key).arrivals
            == before.arrivals + if FilterRun(w.strtol, f, events)(key) then [EventMessage.Body(db, event, key)] else []
  {
    RunRefines(w, s, f, events);
  }

  // ---- `ALL` ----

  lemma ExecuteKeepsAllFirst(w: World, s: State, kind: Kind, argv: seq<string>)
    requires AllComesFirst(s.config.masks)
    ensures AllComesFirst(Execute(w, s, kind, argv).config.masks)
  {
    ConfiguredMasks(w.strtol, s.config, Rest(argv));
    AddKeepsAllFirst(s.config.masks, argv);
    AddKeepsAllFirst([], argv);
    if |Rest(argv)| > 9 {
      AddKeepsAllFirst([], Rest(argv)[9..]);
    }
  }

  /** Over every run `ALL` is only ever the first mask, so a scan that meets it stops at once. */
  lemma {:induction false} RunKeepsAllFirst(w: World, s: State, events: seq<Event>)
    requires AllComesFirst(s.config.masks)
    ensures AllComesFirst(Run(w, s, events).config.masks)
    decreases |events|
  {
    if events != [] {
      var e := events[0];
      match e {
        case Command(kind, argv) => ExecuteKeepsAllFirst(w, s, kind, argv);
        case Message(kind, payload) =>
          var argv := ArgumentCodec.Split(payload);
          if kind == COMMAND_MESSAGE && argv != [] && Dispatch(argv[0]) != [] {
            ExecuteKeepsAllFirst(w, s, Dispatch(argv[0])[0], argv);
          }
        case _ => EventsLeaveConfig(w, s, e);
      }
      RunKeepsAllFirst(w, Step(w, s, e), events[1..]);
    }
  }

  // ---- The command name as a mask ----

  /** keymask_add and keymask_set were meant to use their arguments; as written they differ on exactly the keys
      that their own name admits and nothing else does. */
  lemma NameIsAMask(w: World, s: State, argv: seq<string>, key: string)
    requires argv != []
    ensures var meant := AddMasks(s.config.masks, argv[1..]);
            AnyAdmits(Execute(w, s, MaskAddCmd, argv).config.masks, key) != AnyAdmits(meant, key)
            <==> Admits(argv[0], key) && !AnyAdmits(meant, key)
    ensures var meant := AddMasks([], argv[1..]);
            AnyAdmits(Execute(w, s, MaskSetCmd, argv).config.masks, key) != AnyAdmits(meant, key)
            <==> Admits(argv[0], key) && !AnyAdmits(meant, key)
  {
    NameAdded(s.config.masks, argv, key);
    NameAdded([], argv, key);
  }

  lemma NameAdded(masks: seq<string>, argv: seq<string>, key: string)
    requires argv != []
    ensures AnyAdmits(AddMasks(masks, argv), key)
       <==> Admits(argv[0], key) || AnyAdmits(AddMasks(masks, argv[1..]), key)
  {
    AddIsUnion(masks, argv, key);
    AddIsUnion(masks, argv[1..], key);
    assert AnyAdmits(argv, key) <==> Admits(argv[0], key) || AnyAdmits(argv[1..], key) by {
      assert forall i | 0 <= i < |argv| - 1 :: argv[1..][i] == argv[i + 1];
    }
  }

  /** For example, adding a mask for the one key `x` also lets the command's name through. */
  lemma CommandNamePasses(w: World, s: State)
    requires s.config.masks == []
    ensures AnyAdmits(Execute(w, s, MaskAddCmd, [Name(MaskAddCmd), "^x$"]).config.masks, Name(MaskAddCmd))
    ensures !AnyAdmits(["^x$"], Name(MaskAddCmd))
  {
    NamePasses(Name(MaskAddCmd));
  }

  lemma NamePasses(name: string)
    requires Matcher.Dotted(name) && name != "x"
    ensures AnyAdmits(AddMasks([], [name, "^x$"]), name) && !AnyAdmits(["^x$"], name)
  {
    Matcher.AcceptsItself(name);
    assert "^" + "x" + "$" == "^x$";
    Matcher.ExactMask("x", name);
    AddIsUnion([], [name, "^x$"], name);
    assert Admits([name, "^x$"][0], name);
  }

  // ---- Rejected configurations ----

  /** A configuration with a bad delivery mode is rejected, but keeps the masks only if it gave none or there were
      none to lose. */
  lemma RejectedKeepsMasksIff(w: World, s: State, argv: seq<string>)
    requires BadMode(w.strtol, Rest(argv))
    ensures !SetupConfig(w, s, argv).1
    ensures Execute(w, s, ConfigCmd, argv).config.masks == Execute(w, s, ConnectCmd, argv).config.masks
         == if |Rest(argv)| <= 9 then s.config.masks else []
    ensures Execute(w, s, ConfigCmd, argv).config.masks == s.config.masks
       <==> |Rest(argv)| <= 9 || s.config.masks == []
  {
    ConfiguredMasks(w.strtol, s.config, Rest(argv));
  }

  /** A reader of plain numerals. */
  function ReadNumeral(s: string): int {
    if Decimal.AllDigits(s) then Decimal.ParseNat(s) else 0
  }

  /** For example, delivery mode 3 with two new masks loses the mask there was. */
  lemma ModeThreeDropsMasks(w: World, s: State)
    requires w.strtol == ReadNumeral && s.config.masks == ["^a"]
    ensures var settings := ["h", "1", "u", "p", "5", "x", "r", "3", "7"];
            !SetupConfig(w, s, [Name(ConfigCmd)] + settings + ["^b", "^c"]).1 &&
            Execute(w, s, ConfigCmd, [Name(ConfigCmd)] + settings + ["^b", "^c"]).config.masks == []
  {
    var argv := [Name(ConfigCmd)] + ["h", "1", "u", "p", "5", "x", "r", "3", "7"] + ["^b", "^c"];
    assert Rest(argv)[7] == "3" && |Rest(argv)| == 11;
    assert Decimal.AllDigits("3") && Decimal.ParseNat("3") == 3;
    RejectedKeepsMasksIff(w, s, argv);
  }
}
