/** The module's configuration and the commands that edit it (library.c): connection settings, the
    size limit of the fallback storage and the key masks. Numbers are read by one function `strtol`,
    the same on every node, and then cut to the width of their C type. */
module Configuration {
  import Matcher

  type Numeral = string -> int

  /** The number of values of a `size_t`. */
  const WORD: nat := 0x1_0000_0000_0000_0000

  const ALL: string := "ALL"

  datatype Settings = Settings(
    hostname: string, port: nat, username: string, password: string, heartbeat: nat,
    exchange: string, routingKey: string, deliveryMode: nat)

  datatype Config = Config(settings: Settings, storageLimit: nat, masks: seq<string>)

  const DEFAULTS: Config := Config(
    Settings("127.0.0.1", 5627, "guest", "guest", 30, "amq.direct", "redis_keyspace_events", 1), 10_000_000, [])

  // ---- Masks ----

  /** A mask lets a key through; `ALL` lets every key through. */
  ghost predicate Admits(mask: string, key: string) {
    mask == ALL || Matcher.Accepts(mask, key)
  }

  ghost predicate AnyAdmits(masks: seq<string>, key: string) {
    exists i | 0 <= i < |masks| :: Admits(masks[i], key)
  }

  /** `keymaskAddCommand`: `ALL` replaces everything collected so far and ends the scan. */
  function AddMasks(masks: seq<string>, args: seq<string>): seq<string>
    decreases |args|
  {
    if args == [] then masks
    else if args[0] == ALL then [ALL]
    else AddMasks(masks + [args[0]], args[1..])
  }

  /** Adding is union, even where `ALL` drops masks and arguments. */
  lemma {:induction false} AddIsUnion(masks: seq<string>, args: seq<string>, key: string)
    ensures AnyAdmits(AddMasks(masks, args), key) <==> AnyAdmits(masks, key) || AnyAdmits(args, key)
    decreases |args|
  {
    if args != [] {
      if args[0] == ALL {
        assert Admits([ALL][0], key) && Admits(args[0], key);
      } else {
        var longer := masks + [args[0]];
        AddIsUnion(longer, args[1..], key);
        assert AnyAdmits(longer, key) <==> AnyAdmits(masks, key) || Admits(args[0], key) by {
          assert longer[|masks|] == args[0];
          assert forall i | 0 <= i < |masks| :: longer[i] == masks[i];
        }
        assert AnyAdmits(args, key) <==> Admits(args[0], key) || AnyAdmits(args[1..], key) by {
          assert forall i | 0 <= i < |args| - 1 :: args[1..][i] == args[i + 1];
        }
      }
    }
  }

  /** `ALL` is only ever the first mask. */
  ghost predicate AllComesFirst(masks: seq<string>) {
    forall i | 0 < i < |masks| :: masks[i] != ALL
  }

  lemma {:induction false} AddKeepsAllFirst(masks: seq<string>, args: seq<string>)
    requires AllComesFirst(masks)
    ensures AllComesFirst(AddMasks(masks, args))
    decreases |args|
  {
    if args != [] && args[0] != ALL {
      AddKeepsAllFirst(masks + [args[0]], args[1..]);
    }
  }

  // ---- Settings ----

  /** One argument of `setupConfig` below the masks, by position. */
  function SetField(strtol: Numeral, c: Config, i: nat, arg: string): Config
    requires i < 9
  {
    match i
    case 0 => c.(settings := c.settings.(hostname := arg))
    case 1 => c.(settings := c.settings.(port := strtol(arg) % 0x1_0000))
    case 2 => c.(settings := c.settings.(username := arg))
    case 3 => c.(settings := c.settings.(password := arg))
    case 4 => c.(settings := c.settings.(heartbeat := strtol(arg) % 0x1_0000_0000))
    case 5 => c.(settings := c.settings.(exchange := arg))
    case 6 => c.(settings := c.settings.(routingKey := arg))
    case 7 => c.(settings := c.settings.(deliveryMode := strtol(arg) % 0x100))
    case _ => c.(storageLimit := strtol(arg) % WORD)
  }

  /** The delivery mode is checked after it was cut to eight bits. */
  predicate BadMode(strtol: Numeral, args: seq<string>) {
    |args| > 7 && strtol(args[7]) % 0x100 > 2
  }

  /** The fields given by the first `n` arguments. */
  function SetFields(strtol: Numeral, c: Config, args: seq<string>, n: nat): Config
    requires n <= |args| && n <= 9
  {
    if n == 0 then c else SetField(strtol, SetFields(strtol, c, args, n - 1), n - 1, args[n - 1])
  }

  /** `setupConfig` on the arguments after the command name: the new configuration, and whether it was
      accepted. More than nine arguments clear the masks before anything is read. */
  function SetConfig(strtol: Numeral, c: Config, args: seq<string>): (Config, bool) {
    var start := if |args| > 9 then c.(masks := []) else c;
    if BadMode(strtol, args) then (SetFields(strtol, start, args, 7), false)
    else if |args| <= 9 then (SetFields(strtol, start, args, |args|), true)
    else
      var fields := SetFields(strtol, start, args, 9);
      (fields.(masks := AddMasks(fields.masks, args[9..])), true)
  }

  lemma {:induction false} FieldsLeaveMasks(strtol: Numeral, c: Config, args: seq<string>, n: nat)
    requires n <= |args| && n <= 9
    ensures SetFields(strtol, c, args, n).masks == c.masks
    ensures n <= 8 ==> SetFields(strtol, c, args, n).storageLimit == c.storageLimit
  {
    if n > 0 {
      FieldsLeaveMasks(strtol, c, args, n - 1);
    }
  }

  /** What a configuration command does to the masks: a bad delivery mode after mask arguments leaves
      none at all. */
  lemma ConfiguredMasks(strtol: Numeral, c: Config, args: seq<string>)
    ensures SetConfig(strtol, c, args).0.masks
         == if |args| <= 9 then c.masks
            else if BadMode(strtol, args) then []
            else AddMasks([], args[9..])
  {
    var start := if |args| > 9 then c.(masks := []) else c;
    if BadMode(strtol, args) {
      FieldsLeaveMasks(strtol, start, args, 7);
    } else {
      FieldsLeaveMasks(strtol, start, args, if |args| <= 9 then |args| else 9);
    }
  }
  // ---- The settings by position ----

  /** Which argument each field comes from, after the first `n` of them. */
  lemma {:induction false} FieldsByPosition(strtol: Numeral, c: Config, args: seq<string>, n: nat)
    requires n <= |args| && n <= 9
    ensures var was, after := c.settings, SetFields(strtol, c, args, n);
      && after.settings.hostname == (if n > 0 then args[0] else was.hostname)
      && after.settings.port == (if n > 1 then strtol(args[1]) % 0x1_0000 else was.port)
      && after.settings.username == (if n > 2 then args[2] else was.username)
      && after.settings.password == (if n > 3 then args[3] else was.password)
      && after.settings.heartbeat == (if n > 4 then strtol(args[4]) % 0x1_0000_0000 else was.heartbeat)
      && after.settings.exchange == (if n > 5 then args[5] else was.exchange)
      && after.settings.routingKey == (if n > 6 then args[6] else was.routingKey)
      && after.settings.deliveryMode == (if n > 7 then strtol(args[7]) % 0x100 else was.deliveryMode)
      && after.storageLimit == (if n > 8 then strtol(args[8]) % WORD else c.storageLimit)
  {
    if n > 0 {
      FieldsByPosition(strtol, c, args, n - 1);
    }
  }

  /** The configuration after `setupConfig`, argument by argument: it is rejected exactly for a delivery mode above 2,
      and then only the arguments before the mode have taken effect. */
  lemma ConfiguredByPosition(strtol: Numeral, c: Config, args: seq<string>)
    ensures var (after, ok) := SetConfig(strtol, c, args);
      var was, now, n := c.settings, after.settings, if ok then |args| else 7;
      && (ok <==> !(|args| > 7 && strtol(args[7]) % 0x100 > 2)) && n <= |args|
      && now.hostname == (if n > 0 then args[0] else was.hostname)
      && now.port == (if n > 1 then strtol(args[1]) % 0x1_0000 else was.port)
      && now.username == (if n > 2 then args[2] else was.username)
      && now.password == (if n > 3 then args[3] else was.password)
      && now.heartbeat == (if n > 4 then strtol(args[4]) % 0x1_0000_0000 else was.heartbeat)
      && now.exchange == (if n > 5 then args[5] else was.exchange)
      && now.routingKey == (if n > 6 then args[6] else was.routingKey)
      && now.deliveryMode == (if n > 7 then strtol(args[7]) % 0x100 else was.deliveryMode)
      && after.storageLimit == (if n > 8 then strtol(args[8]) % WORD else c.storageLimit)
  {
    var start := if |args| > 9 then c.(masks := []) else c;
    FieldsByPosition(strtol, start, args, if BadMode(strtol, args) then 7 else if |args| <= 9 then |args| else 9);
  }

  /** Masks remain exactly if there were some or some were given. */
  lemma {:induction false} AddLeavesMasksIff(masks: seq<string>, args: seq<string>)
    ensures AddMasks(masks, args) != [] <==> masks != [] || args != []
    decreases |args|
  {
    if args != [] && args[0] != ALL {
      AddLeavesMasksIff(masks + [args[0]], args[1..]);
    }
  }
}
