/** Runs replicated over the cluster bus: when a node that receives the broadcasts of another ends with the same
    configuration. Both read numerals alike; their brokers, stored lists, timers and keyspace events are their own. */
module Convergence {
  import opened Configuration
  import opened Broker
  import opened Forwarder
  import opened Replication
  import ArgumentCodec

  type Commands = seq<(Kind, seq<string>)>

  // ---- Commands typed and received ----

  /** The commands typed at a node, in order. */
  function Typed(events: seq<Event>): Commands
    decreases |events|
  {
    if events == [] then []
    else (if events[0].Command? then [(events[0].kind, events[0].argv)] else []) + Typed(events[1..])
  }

  predicate IsCommandMessage(e: Event) {
    e.Message? && e.messageKind == COMMAND_MESSAGE
  }

  /** The command messages a node received, in order. */
  function Received(events: seq<Event>): seq<string>
    decreases |events|
  {
    if events == [] then []
    else (if IsCommandMessage(events[0]) then [events[0].payload] else []) + Received(events[1..])
  }

  /** What `broadcastRedisCommand` sends for each command. */
  function Broadcasts(commands: Commands): seq<string> {
    seq(|commands|, i requires 0 <= i < |commands| => ArgumentCodec.Joined(commands[i].1))
  }

  ghost predicate AllFaithful(commands: Commands) {
    forall i :: 0 <= i < |commands| ==> Faithful(commands[i].0, commands[i].1)
  }

  function ConfigAfterAll(strtol: Numeral, c: Config, commands: Commands): Config
    decreases |commands|
  {
    if commands == [] then c
    else ConfigAfterAll(strtol, ConfigAfter(strtol, c, commands[0].0, commands[0].1), commands[1..])
  }

  // ---- Receivers ----

  /** How a receiver finds the branch of a command name. */
  type Dispatcher = string -> seq<Kind>

  /** The receiver with the name that was meant in its last branch. */
  function DispatchMeant(command: string): seq<Kind> {
    if Dispatch(command) != [] then Dispatch(command)
    else if command == Name(MaskSetCmd) then [MaskSetCmd]
    else []
  }

  function ReceiveBy(dispatch: Dispatcher, w: World, s: State, kind: int, payload: string): State {
    var argv := ArgumentCodec.Split(payload);
    if kind != COMMAND_MESSAGE || argv == [] || dispatch(argv[0]) == [] then s
    else Execute(w, s, dispatch(argv[0])[0], argv)
  }

  ghost function StepBy(dispatch: Dispatcher, w: World, s: State, e: Event): State {
    if e.Message? then ReceiveBy(dispatch, w, s, e.messageKind, e.payload) else Step(w, s, e)
  }

  ghost function RunBy(dispatch: Dispatcher, w: World, s: State, events: seq<Event>): State
    decreases |events|
  {
    if events == [] then s else RunBy(dispatch, w, StepBy(dispatch, w, s, events[0]), events[1..])
  }

  lemma {:induction false} RunByAsWritten(w: World, s: State, events: seq<Event>)
    ensures RunBy(Dispatch, w, s, events) == Run(w, s, events)
    decreases |events|
  {
    if events != [] {
      assert StepBy(Dispatch, w, s, events[0]) == Step(w, s, events[0]);
      RunByAsWritten(w, Step(w, s, events[0]), events[1..]);
    }
  }

  /** The commands whose names the receiver knows. */
  ghost predicate Knows(dispatch: Dispatcher, known: set<Kind>) {
    forall kind: Kind :: dispatch(Name(kind)) == if kind in known then [kind] else []
  }

  ghost const WRITTEN: set<Kind> := set kind: Kind | kind != MaskSetCmd
  ghost const MEANT: set<Kind> := set kind: Kind | true

  lemma KnownCommands()
    ensures Knows(Dispatch, WRITTEN) && Knows(DispatchMeant, MEANT)
  {
    forall kind: Kind
      ensures Dispatch(Name(kind)) == if kind in WRITTEN then [kind] else []
      ensures DispatchMeant(Name(kind)) == [kind]
    {
      DispatchIff(Name(kind), kind);
    }
  }

  /** The commands of a list that a receiver knows. */
  ghost function Heard(commands: Commands, known: set<Kind>): Commands
    decreases |commands|
  {
    if commands == [] then []
    else (if commands[0].0 in known then [commands[0]] else []) + Heard(commands[1..], known)
  }

  // ---- What a run does to the configuration ----

  lemma QuietStepKeepsConfig(dispatch: Dispatcher, w: World, s: State, e: Event)
    requires !e.Command? && !IsCommandMessage(e)
    ensures StepBy(dispatch, w, s, e).config == s.config
  {
  }

  lemma TypedStep(events: seq<Event>)
    requires events != []
    ensures events[0].Command? ==> Typed(events) == [(events[0].kind, events[0].argv)] + Typed(events[1..])
    ensures !events[0].Command? ==> Typed(events) == Typed(events[1..])
  {
  }

  lemma ReceivedStep(events: seq<Event>)
    requires events != []
    ensures IsCommandMessage(events[0]) ==> Received(events) == [events[0].payload] + Received(events[1..])
    ensures !IsCommandMessage(events[0]) ==> Received(events) == Received(events[1..])
  {
  }

  lemma BroadcastsStep(payload: string, rest: seq<string>, commands: Commands)
    requires Broadcasts(commands) == [payload] + rest
    ensures commands != [] && payload == ArgumentCodec.Joined(commands[0].1) && rest == Broadcasts(commands[1..])
  {
    assert |Broadcasts(commands)| == |rest| + 1;
    assert Broadcasts(commands)[0] == payload;
    assert rest == Broadcasts(commands)[1..];
  }

  /** The sender's configuration depends on the commands alone, whatever else happens there. */
  lemma {:induction false} SenderConfig(dispatch: Dispatcher, w: World, s: State, events: seq<Event>)
    requires Received(events) == []
    ensures RunBy(dispatch, w, s, events).config == ConfigAfterAll(w.strtol, s.config, Typed(events))
    decreases |events|
  {
    if events != [] {
      var e := events[0];
      ReceivedStep(events);
      TypedStep(events);
      SenderConfig(dispatch, w, StepBy(dispatch, w, s, e), events[1..]);
      if e.Command? {
        ExecuteConfig(w, s, e.kind, e.argv);
      } else {
        QuietStepKeepsConfig(dispatch, w, s, e);
      }
    }
  }

  lemma ReceiveByFaithful(dispatch: Dispatcher, known: set<Kind>, w: World, s: State, kind: Kind, argv: seq<string>)
    requires Knows(dispatch, known) && Faithful(kind, argv)
    ensures ReceiveBy(dispatch, w, s, COMMAND_MESSAGE, ArgumentCodec.Joined(argv)).config
         == if kind in known then ConfigAfter(w.strtol, s.config, kind, argv) else s.config
  {
    ArgumentCodec.RoundTrip(argv);
    ExecuteConfig(w, s, kind, argv);
  }

  /** The receiver's configuration depends on the broadcast commands it knows. */
  lemma {:induction false} ReceiverConfig(dispatch: Dispatcher, known: set<Kind>, w: World, s: State,
                                          events: seq<Event>, commands: Commands)
    requires Knows(dispatch, known) && AllFaithful(commands)
    requires Typed(events) == [] && Received(events) == Broadcasts(commands)
    ensures RunBy(dispatch, w, s, events).config == ConfigAfterAll(w.strtol, s.config, Heard(commands, known))
    decreases |events|
  {
    if events == [] {
      assert |Broadcasts(commands)| == 0;
    } else {
      var e := events[0];
      var next := StepBy(dispatch, w, s, e);
      ReceivedStep(events);
      TypedStep(events);
      if IsCommandMessage(e) {
        BroadcastsStep(e.payload, Received(events[1..]), commands);
        ReceiveByFaithful(dispatch, known, w, s, commands[0].0, commands[0].1);
        ReceiverConfig(dispatch, known, w, next, events[1..], commands[1..]);
        HeardStep(w.strtol, s.config, commands, known);
      } else {
        QuietStepKeepsConfig(dispatch, w, s, e);
        ReceiverConfig(dispatch, known, w, next, events[1..], commands);
      }
    }
  }

  lemma HeardStep(strtol: Numeral, c: Config, commands: Commands, known: set<Kind>)
    requires commands != []
    ensures var (kind, argv) := commands[0];
      ConfigAfterAll(strtol, c, Heard(commands, known))
      == ConfigAfterAll(strtol, if kind in known then ConfigAfter(strtol, c, kind, argv) else c,
                        Heard(commands[1..], known))
  {
    var rest := Heard(commands[1..], known);
    assert ([commands[0]] + rest)[1..] == rest && [] + rest == rest;
  }

  // ---- Runs with keymask_set ----

  /** The command sets the masks to something that does not depend on the masks before. */
  predicate Overwrites(kind: Kind, argv: seq<string>) {
    match kind
    case MaskCleanCmd => true
    case MaskSetCmd => true
    case MaskAddCmd => ALL in argv
    case ConnectCmd => |Rest(argv)| > 9
    case ConfigCmd => |Rest(argv)| > 9
    case _ => false
  }

  lemma {:induction false} AddedMasksAgreeIff(a: seq<string>, b: seq<string>, args: seq<string>)
    ensures AddMasks(a, args) == AddMasks(b, args) <==> a == b || ALL in args
    decreases |args|
  {
    if args != [] && args[0] != ALL {
      AddedMasksAgreeIff(a + [args[0]], b + [args[0]], args[1..]);
      assert a + [args[0]] == b + [args[0]] ==> a == (a + [args[0]])[..|a|] == (b + [args[0]])[..|a|] == b by {
        assert |a + [args[0]]| == |a| + 1 && |b + [args[0]]| == |b| + 1;
      }
    }
  }

  lemma {:induction false} FieldsIgnoreMasks(strtol: Numeral, c: Config, masks: seq<string>, args: seq<string>, n: nat)
    requires n <= |args| && n <= 9
    ensures SetFields(strtol, c.(masks := masks), args, n) == SetFields(strtol, c, args, n).(masks := masks)
  {
    if n > 0 {
      FieldsIgnoreMasks(strtol, c, masks, args, n - 1);
    }
  }

  lemma ConfiguringAgreesIff(strtol: Numeral, c: Config, masks: seq<string>, args: seq<string>)
    ensures var one, two := SetConfig(strtol, c, args).0, SetConfig(strtol, c.(masks := masks), args).0;
      two == one.(masks := two.masks) && (one.masks == two.masks <==> c.masks == masks || |args| > 9)
  {
    ConfiguredMasks(strtol, c, args);
    ConfiguredMasks(strtol, c.(masks := masks), args);
    if |args| <= 9 {
      FieldsIgnoreMasks(strtol, c, masks, args, |args|);
      if BadMode(strtol, args) {
        FieldsIgnoreMasks(strtol, c, masks, args, 7);
      }
    }
  }

  /** A command takes configurations that differ in the masks only to such again. */
  lemma StepAgreesIff(strtol: Numeral, c: Config, masks: seq<string>, kind: Kind, argv: seq<string>)
    ensures var one, two := ConfigAfter(strtol, c, kind, argv), ConfigAfter(strtol, c.(masks := masks), kind, argv);
      two == one.(masks := two.masks) && (one.masks == two.masks <==> c.masks == masks || Overwrites(kind, argv))
  {
    ConfiguringAgreesIff(strtol, c, masks, Rest(argv));
    AddedMasksAgreeIff(c.masks, masks, argv);
  }

  ghost predicate AnyOverwrites(commands: Commands) {
    exists i :: 0 <= i < |commands| && Overwrites(commands[i].0, commands[i].1)
  }

  lemma {:induction false} LaterAgreesIff(strtol: Numeral, c: Config, masks: seq<string>, commands: Commands)
    ensures ConfigAfterAll(strtol, c, commands) == ConfigAfterAll(strtol, c.(masks := masks), commands)
       <==> c.masks == masks || AnyOverwrites(commands)
    decreases |commands|
  {
    if commands == [] {
      assert c == c.(masks := masks) <==> c.masks == masks;
    } else {
      var (kind, argv) := commands[0];
      StepAgreesIff(strtol, c, masks, kind, argv);
      var one, two := ConfigAfter(strtol, c, kind, argv), ConfigAfter(strtol, c.(masks := masks), kind, argv);
      LaterAgreesIff(strtol, one, two.masks, commands[1..]);
      AnyOverwritesStep(commands);
    }
  }

  lemma AnyOverwritesStep(commands: Commands)
    requires commands != []
    ensures AnyOverwrites(commands) <==> Overwrites(commands[0].0, commands[0].1) || AnyOverwrites(commands[1..])
  {
    if AnyOverwrites(commands[1..]) {
      var i :| 0 <= i < |commands| - 1 && Overwrites(commands[1..][i].0, commands[1..][i].1);
      assert Overwrites(commands[i + 1].0, commands[i + 1].1);
    }
  }

  lemma {:induction false} AfterAppended(strtol: Numeral, c: Config, a: Commands, b: Commands)
    ensures ConfigAfterAll(strtol, c, a + b) == ConfigAfterAll(strtol, ConfigAfterAll(strtol, c, a), b)
    decreases |a|
  {
    if a == [] {
      assert a + b == b;
    } else {
      AfterAppended(strtol, ConfigAfter(strtol, c, a[0].0, a[0].1), a[1..], b);
      assert (a + b)[1..] == a[1..] + b;
    }
  }

  lemma Reassociate<T>(a: seq<T>, b: seq<T>, c: seq<T>)
    ensures a + (b + c) == (a + b) + c
  {
  }

  lemma {:induction false} HeardAppended(a: Commands, b: Commands, known: set<Kind>)
    ensures Heard(a + b, known) == Heard(a, known) + Heard(b, known)
    decreases |a|
  {
    if a == [] {
      assert a + b == b;
    } else {
      HeardAppended(a[1..], b, known);
      assert (a + b)[1..] == a[1..] + b;
      var head := if a[0].0 in known then [a[0]] else [];
      Reassociate(head, Heard(a[1..], known), Heard(b, known));
    }
  }

  lemma {:induction false} AllHeard(commands: Commands, known: set<Kind>)
    requires forall i :: 0 <= i < |commands| ==> commands[i].0 in known
    ensures Heard(commands, known) == commands
    decreases |commands|
  {
    if commands != [] {
      AllHeard(commands[1..], known);
    }
  }

  /** Whatever was not heard, only the masks can differ. */
  lemma {:induction false} OnlyMasksDiffer(strtol: Numeral, c: Config, masks: seq<string>, commands: Commands)
    ensures var heard := ConfigAfterAll(strtol, c.(masks := masks), Heard(commands, WRITTEN));
      heard == ConfigAfterAll(strtol, c, commands).(masks := heard.masks)
    decreases |commands|
  {
    if commands != [] {
      var (kind, argv) := commands[0];
      var one := ConfigAfter(strtol, c, kind, argv);
      HeardStep(strtol, c.(masks := masks), commands, WRITTEN);
      if kind == MaskSetCmd {
        assert c.(masks := masks) == one.(masks := masks);
        OnlyMasksDiffer(strtol, one, masks, commands[1..]);
      } else {
        StepAgreesIff(strtol, c, masks, kind, argv);
        OnlyMasksDiffer(strtol, one, ConfigAfter(strtol, c.(masks := masks), kind, argv).masks, commands[1..]);
      }
    }
  }

  /** Command `k` is a keymask_set that is made up for: a later command overwrites the masks, or it sets those the
      receiver has anyway. */
  ghost predicate MadeUpFor(strtol: Numeral, c: Config, commands: Commands, k: nat)
    requires k < |commands|
  {
    || AnyOverwrites(commands[k + 1..])
    || AddMasks([], commands[k].1) == ConfigAfterAll(strtol, c, Heard(commands[..k], WRITTEN)).masks
  }

  ghost predicate SetsAreMadeUpFor(strtol: Numeral, c: Config, commands: Commands) {
    forall k :: 0 <= k < |commands| && commands[k].0 == MaskSetCmd ==> MadeUpFor(strtol, c, commands, k)
  }

  lemma {:induction false} LastSet(commands: Commands) returns (k: nat)
    requires exists i :: 0 <= i < |commands| && commands[i].0 == MaskSetCmd
    ensures k < |commands| && commands[k].0 == MaskSetCmd
    ensures forall i :: k < i < |commands| ==> commands[i].0 != MaskSetCmd
  {
    var n := |commands| - 1;
    if commands[n].0 == MaskSetCmd {
      k := n;
    } else {
      var i :| 0 <= i < |commands| && commands[i].0 == MaskSetCmd;
      assert commands[..n][i].0 == MaskSetCmd;
      k := LastSet(commands[..n]);
    }
  }

  lemma LastSetDecides(strtol: Numeral, c: Config, commands: Commands, k: nat)
    requires k < |commands| && commands[k].0 == MaskSetCmd
    requires forall i :: k < i < |commands| ==> commands[i].0 != MaskSetCmd
    ensures ConfigAfterAll(strtol, c, commands) == ConfigAfterAll(strtol, c, Heard(commands, WRITTEN))
       <==> MadeUpFor(strtol, c, commands, k)
  {
    var before, replaced, after := commands[..k], [commands[k]], commands[k + 1..];
    assert commands == before + (replaced + after);
    AllHeard(after, WRITTEN);
    HeardAppended(before, replaced + after, WRITTEN);
    HeardStep(strtol, c, replaced + after, WRITTEN);
    assert (replaced + after)[1..] == after && Heard(replaced + after, WRITTEN) == after;
    AfterAppended(strtol, c, before, replaced + after);
    AfterAppended(strtol, c, Heard(before, WRITTEN), after);
    OnlyMasksDiffer(strtol, c, c.masks, before);
    var heard := ConfigAfterAll(strtol, c, Heard(before, WRITTEN));
    var one := ConfigAfterAll(strtol, c, before).(masks := AddMasks([], commands[k].1));
    assert c.(masks := c.masks) == c && heard == one.(masks := heard.masks);
    LaterAgreesIff(strtol, one, heard.masks, after);
  }

  lemma EarlierSetsAreOverwritten(strtol: Numeral, c: Config, commands: Commands, k: nat)
    requires k < |commands| && commands[k].0 == MaskSetCmd
    ensures forall i :: 0 <= i < k ==> MadeUpFor(strtol, c, commands, i)
  {
    forall i | 0 <= i < k
      ensures MadeUpFor(strtol, c, commands, i)
    {
      assert commands[i + 1..][k - i - 1] == commands[k];
    }
  }

  lemma SameConfigIff(strtol: Numeral, c: Config, commands: Commands)
    ensures ConfigAfterAll(strtol, c, commands) == ConfigAfterAll(strtol, c, Heard(commands, WRITTEN))
       <==> SetsAreMadeUpFor(strtol, c, commands)
  {
    if exists i :: 0 <= i < |commands| && commands[i].0 == MaskSetCmd {
      var k := LastSet(commands);
      LastSetDecides(strtol, c, commands, k);
      EarlierSetsAreOverwritten(strtol, c, commands, k);
    } else {
      AllHeard(commands, WRITTEN);
    }
  }

  /** Whatever else happens on them, a node that started equal and received the broadcasts of all commands in order
      ends with the sender's settings, storage limit and masks exactly if every keymask_set is made up for. */
  lemma NodesConvergeIff(w1: World, s1: State, es1: seq<Event>, w2: World, s2: State, es2: seq<Event>)
    requires w1.strtol == w2.strtol && s1.config == s2.config && AllFaithful(Typed(es1))
    requires Received(es1) == [] && Typed(es2) == [] && Received(es2) == Broadcasts(Typed(es1))
    ensures Run(w1, s1, es1).config == Run(w2, s2, es2).config
       <==> SetsAreMadeUpFor(w1.strtol, s1.config, Typed(es1))
  {
    KnownCommands();
    RunByAsWritten(w1, s1, es1);
    RunByAsWritten(w2, s2, es2);
    SenderConfig(Dispatch, w1, s1, es1);
    ReceiverConfig(Dispatch, WRITTEN, w2, s2, es2, Typed(es1));
    SameConfigIff(w1.strtol, s1.config, Typed(es1));
  }

  /** With the name that was meant in the receiver's last branch, they always end equal. */
  lemma MeantNodesConverge(w1: World, s1: State, es1: seq<Event>, w2: World, s2: State, es2: seq<Event>)
    requires w1.strtol == w2.strtol && s1.config == s2.config && AllFaithful(Typed(es1))
    requires Received(es1) == [] && Typed(es2) == [] && Received(es2) == Broadcasts(Typed(es1))
    ensures RunBy(DispatchMeant, w1, s1, es1).config == RunBy(DispatchMeant, w2, s2, es2).config
  {
    KnownCommands();
    SenderConfig(DispatchMeant, w1, s1, es1);
    ReceiverConfig(DispatchMeant, MEANT, w2, s2, es2, Typed(es1));
    AllHeard(Typed(es1), MEANT);
  }
}
