# Verification of the keyspace event forwarder

The Redis module in this repository forwards keyspace events to an AMQP broker: keys are filtered by masks, events
that cannot be delivered are kept in a Redis list and sent later, a timer watches the connection, and configuration
commands are repeated to the other nodes of a Redis cluster. The repository also carries `redis-trib.rb`, the tool
that lays out and reshards the cluster the module is tried on. This project models both in Dafny and proves what
their operations promise. `dafny verify dfyconfig.toml` checks everything.

## How the model is built

Code that changes state is imperative here too. `KeyspaceModules.KeyspaceModule` has the globals of library.c as
fields (`conn`, `heardBeatTimerId`, `amqpConnectionEnabled`, the believed and the maximal storage length, the mask
array), `StringArrays.StringArray` is the growable array of utils.c, and `ClusterNodes.ClusterNode` is the node object of
redis-trib.rb. Each method is proved equal to a step of a state machine over values (`Broker`, `Forwarder`,
`Configuration`), and the theorems about whole runs are proved about that state machine. Loops keep their loops:
the matcher, the serializer and its parser, CRC16, the allocation of slots, the round-robin, the choice of replicas.

What the module cannot see is a parameter: the broker is an arbitrary script of answers, one for each call, so a
theorem about a run holds for every behaviour of the broker; `strtol` is an arbitrary function; rounding errors of
float arithmetic are arbitrary real numbers. A string is what C sees through a `const char*`, one element per byte
before the NUL. History that the program does not keep (all events pushed, published, evicted; how often a timer
was armed) is kept in ghost fields.

| file | part of the program |
|---|---|
| Matcher | mask matching |
| ArgumentCodec, Decimal, EventMessage | messages: command arguments between nodes, event bodies to the broker |
| StringArray, Configuration, MaskProperties, Setup | the masks, the positional configuration and loading |
| Broker, Forwarder, KeyspaceModule | connection, fallback queue, timers, commands |
| Deliveries | what each timer, event and connection command sends and stores, from the broker's answers alone |
| RunInduction, BacklogProperties, ConnectionProperties | theorems about whole runs of one node |
| StorageLimit, StorageRuns, Evictions, NegativeSize | the size of the fallback storage, over whole runs |
| CountedStorage, StorageOff | the fallback storage as it was meant, over whole runs |
| Replication, Convergence | commands repeated on other nodes, and whole runs of two nodes |
| PolynomialDivision, CrcTable, Crc16, BinaryNumber, KeySlot | CRC16 (the XMODEM variant of the Redis Cluster Specification, Appendix A) and key slots |
| SlotRanges, ClusterNodes | a node, its slots and how they are printed and read |
| Interleaving, Spreading, SlotAllocation, ReplicaAssignment, ClusterCreation | laying out a cluster |
| Resharding, ReshardQuantities | the reshard plan |
| Extrema | minimum and maximum |

## Where the code does not do what is promised

The model follows the code. For each of these points a lemma says for all inputs when the promise is kept, or that
it never is, and another gives a concrete case where it is not.

- The believed length of the fallback list is not incremented by storing (library.c:88-92) but decremented by
  draining (library.c:60), modulo the word size. `StorageLimit.BelievedLengthIsExactWithoutGrowth` says when it is
  right. Two promises depend on it, from one change of the size to the next. That the list stays within the limit is
  kept exactly under the condition of `StorageRuns.RunKeepsLimitIff`: a list that starts full holds its length until
  it is shipped down below the limit, and from then on nothing is evicted until as many events were shipped as it had
  left; `StorageLimit.LimitOneHoldsTwo` is a case where it fails. That events are dropped from a full list only is
  kept exactly under the condition of `Evictions.RunLosesNoneEarlyIff`; `Evictions.OneShippedOneLost` and
  `StorageLimit.StorageCollapsesAfterDrain` are cases where it fails. `CountedStorage.CountedRunKeepsPromise` shows that
  incrementing would keep both over every run.
- A negative storage size is documented as switching storage off (README.md:102). It is stored in a `size_t`, so the
  tests for a negative size never hold (`NegativeSizes.NegativeSizeIsHuge`). Nothing is stored exactly if nothing was
  stored before and the broker accepts every event at once (`NegativeSizes.NothingIsStoredIff`), and then the run is
  the one that was meant (`StorageOff.WrittenIsOffIff`). Otherwise a size of -m acts as no limit, exactly until an event
  arrives while others are stored and between 1 and m more were shipped than the list had when the size was set: such
  an event drops another (`NegativeSizes.NegativeSizeIsNoLimitIff`). With a size of -1 an outage is stored in full
  (`MinusOneStoresEverything`), and an event is dropped after one was stored and shipped (`MinusOneDropsOne`).
- When the connection returns, all stored events are documented to be sent (README.md:19). A timer that reopens the
  connection sends them, up to the first one the broker does not take (`Deliveries.TimerEmptiesBacklogIff`), and so
  does an event that is accepted (`EventEmptiesBacklogIff`); with a healthy broker both together leave nothing stored
  (`NothingStaysStored`). But a connect command sends nothing, and while its connection holds, timers send nothing
  either: the backlog waits for the next event (`ConnectLeavesBacklog`, `IdleBacklogWaits`).
- The default port is documented as 5672 (README.md:86) and is 5627 (library.h:19): `Setup.DocumentedPortIff`.
- Loaded without masks, the module is documented to forward nothing until masks are added (README.md:117). Forwarding
  is on after loading exactly if masks were given (`Setup.LoadedState`), and adding masks does not turn it on: it takes
  a connect command (`Setup.MasksAloneForwardNothing`, `Deliveries.ConnectCommandOutcome`).
- `key_evt_amqp.keymask_set` is broadcast but no node acts on it, because its branch compares with the name of
  keymask_add (library.c:496). `Convergence.NodesConvergeIff` says for any run of commands when the nodes end equal
  all the same, `Replication.MaskSetDiverges` is a case where they do not, and `Convergence.MeantNodesConverge` shows
  that the right name would be enough.
- keymask_add and keymask_set add the command name itself as a mask (library.c:398): `MaskProperties.NameIsAMask`,
  `CommandNamePasses`.
- A bad delivery mode is rejected after the old masks were dropped (library.c:233-292):
  `MaskProperties.RejectedKeepsMasksIff`, `ModeThreeDropsMasks`.
- redis-trib.rb says that all nodes will be used as replicas (redis-trib.rb:601-607):
  `ReplicaAssignment.AllNodesAreUsedIff`, and `OneOfNineteenIsUnused` for 19 nodes and 4 replicas.
- A source node listed twice can make the reshard plan move slots twice: `ReshardQuantities.NoMoveIsRepeatedIff`,
  `TwiceListedMovesTwice`.
- A reshard plan can move fewer slots than asked for: `ReshardQuantities.AllAreMovedIff`, `OneSlotShort`.

Two more things that follow from the code and may surprise: a fresh event is published before the stored ones
(library.c:119-127), so the order of arrival is broken whenever any are stored
(`BacklogProperties.FreshEventOvertakes`), and a connect command can leave a second timer pending
(`ConnectionProperties.TwoTimersCanBePending`).

## Model

| member | source | states |
|---|---|---|
| Matcher.MatchHere | utils.c:134-153 | finds a match exactly when some prefix of the text is a word of the mask's language, within (L+1)(n+1)^k calls for k stars |
| Matcher.MatchStar | utils.c:138-146 | the shortest-first star loop misses no number of repetitions, within the same bound |
| Matcher.Match | utils.c:156-165 | accepts exactly the language of the whole mask, anchored or at any position, within (L+1)(n+1)^(k+1) calls |
| Matcher.AcceptsOne | utils.c:150-151 | a head without star consumes one fitting character of the language's words |
| Matcher.AcceptsMany | utils.c:138-146 | a starred head stands for any number of fitting characters |
| Matcher.AcceptsDollar | utils.c:148-149 | a final dollar accepts only the end of the text |
| Matcher.PrefixMask | README.md:105 | the documented mask for a prefix accepts exactly the keys with that prefix |
| Matcher.ExactMask | README.md:105-113 | an anchored mask with a dollar accepts exactly one key |
| Matcher.PlainMask | README.md:108-113 | a mask of plain characters accepts exactly the keys containing it |
| Matcher.SubstringMask | README.md:108-113 | dot-star on both sides changes nothing: the keys containing the middle |
| Matcher.AcceptsItself | utils.c:134-165 | a mask of letters and dots accepts itself as a key |
| ArgumentCodec.Serialize | utils.c:64-84 | joins the arguments by newlines |
| ArgumentCodec.Parse | utils.c:89-117 | cuts at every newline, and keeps a last piece only if it is not empty |
| ArgumentCodec.RoundTrip | utils.c:64-117 | a non-empty argument list survives exactly when no argument has a newline and the last is not empty |
| ArgumentCodec.OnlyAnEmptyLastArgumentIsLost | utils.c:109-112 | without newlines, an empty last argument is all that can get lost |
| ArgumentCodec.JoinIsInjective | utils.c:64-84 | different transmissible lists have different messages |
| ArgumentCodec.JoinOfSplit | utils.c:64-117 | joining what was split gives back any message, but for one final newline |
| ArgumentCodec.SplitIsOneLine | utils.c:98-107 | no argument read from a message contains a newline |
| Decimal.PrintParse | library.c:116 | decimal printing can be read back |
| Decimal.PrintIsInjective | library.c:116 | different numbers print differently |
| Decimal.Print32Length | library.c:115-116 | a 32-bit number prints in at most 11 characters |
| EventMessage.BodyIsInjective | library.c:115-116 | the body tells database, event and key apart for event names without newline, whatever the key |
| EventMessage.DocumentedBody | README.md:12-17 | the documented example of a body |
| EventMessage.NewlineInEventNameCollides | library.c:115-116 | an event name with a newline would not be told apart |
| EventMessage.BodyFitsBuffer | library.c:115-116 | the body and its terminator fit the buffer for every 32-bit database number |
| StringArrays.StringArray.constructor | utils.c:28-33 | starts empty with the given capacity |
| StringArrays.StringArray.Add | utils.c:35-43 | appends one element, keeps the others, doubles a full array |
| StringArrays.StringArray.Clean | utils.c:45-51 | empties the array and keeps its capacity |
| StringArrays.StringArray.GetLength | utils.c:53-55 | the number of elements added since the last clean |
| StringArrays.StringArray.GetElement | utils.c:57-59 | the element at an index |
| Configuration.AddIsUnion | library.c:394-408 | adding masks accepts the union, with ALL as the universe even where it drops other masks |
| Configuration.AddKeepsAllFirst | library.c:400-404 | ALL is only ever the first mask |
| Configuration.FieldsLeaveMasks | library.c:243-266 | the positional fields do not touch the masks, and only the last one the storage limit |
| Configuration.ConfiguredMasks | library.c:234-283 | the masks after configuring: untouched with up to nine arguments, dropped with a bad delivery mode, else exactly the new ones |
| Configuration.ConfiguredByPosition | library.c:226-292 | for each of the nine positional fields, which argument it is taken from and cut to which width, and when it stays: rejected exactly for a delivery mode above 2, with only the seven fields before it set |
| Configuration.FieldsByPosition | library.c:238-271 | the same after any number of arguments |
| Configuration.AddLeavesMasksIff | library.c:394-408 | masks remain exactly if there were some or some were given |
| Setup.LoadedState | library.c:294-309 | when loading is accepted, and the state it leaves: defaults overwritten by the arguments, no connection, no timer, the list kept and its length read, forwarding on exactly if more than nine arguments follow the first |
| Setup.FirstEventIsForwardedIff | library.c:541-592 | after an accepted load the first event on a master is forwarded exactly if a mask among the arguments admits its key |
| Setup.AllSettingsGiven | library.c:238-271 | with nine arguments and a proper mode no setting of before remains |
| Setup.DocumentedLoadLine | README.md:54-63 | what the documented load line sets up, and that it forwards exactly if masks follow |
| Setup.DefaultsRemain | library.h:16-25 | the settings without arguments, and that nothing is forwarded then |
| Setup.DocumentedPortIff | library.h:19 | the port after loading is the documented default exactly if it was given |
| Setup.MasksAloneForwardNothing | library.c:589-592 | loaded without masks, along any run without a connect command nothing is sent or stored, whatever masks are added |
| Setup.ConfigCommandOutcome | library.c:420-426 | config_set changes the configuration and the believed length only |
| Setup.StorageSizeOutcome | library.c:375-386 | the size command changes the limit and the believed length only, and nothing without exactly one argument |
| Setup.MaskCommandOutcome | library.c:388-461 | the mask commands change the masks only: to none, to the union with the arguments, or to the arguments, the name among them |
| MaskProperties.RunRefines | library.c:234-283 | over any run of commands, messages, events and timers the mask array refines an abstract set of accepted keys |
| MaskProperties.ForwardedIffAccepted | library.c:192-206 | after any run an event is forwarded, once, exactly when the abstract set has its key |
| MaskProperties.RunKeepsAllFirst | library.c:267-278 | over any run ALL, if present, is the first mask |
| MaskProperties.NameIsAMask | library.c:394-461 | for keymask_add and keymask_set, exactly which keys the command name lets through that the masks given would not |
| MaskProperties.CommandNamePasses | library.c:398 | a concrete key that only the command name lets through |
| MaskProperties.RejectedKeepsMasksIff | library.c:234-266 | a configuration with a bad delivery mode is rejected, and keeps the masks exactly if it gave none or there were none |
| MaskProperties.ModeThreeDropsMasks | library.c:234-266 | a concrete rejected configuration that loses a mask |
| KeyspaceModules.KeyspaceModule.AmqpWaitFrame | amqp_connection.c:15-31 | one broker call, with its answer |
| KeyspaceModules.KeyspaceModule.AmqpDisconnect | amqp_connection.c:33-46 | closes the connection or reports that there is none |
| KeyspaceModules.KeyspaceModule.AmqpConnect | amqp_connection.c:48-84 | the transition of the connection and the code returned for each outcome: a missing socket leaves it half open |
| KeyspaceModules.KeyspaceModule.AmqpPublish | amqp_connection.c:86-97 | the transition of the connection, and the message accepted or not |
| KeyspaceModules.KeyspaceModule.PublishStoredEvents | library.c:34-69 | is the draining step on connection and queue |
| KeyspaceModules.KeyspaceModule.SyncFallbackStorageLen | library.c:71-75 | reads the length of the list |
| KeyspaceModules.KeyspaceModule.PushEventToStorage | library.c:77-94 | is the storing step on the queue, with the eviction the believed length asks for |
| KeyspaceModules.KeyspaceModule.PublishEvent | library.c:112-131 | is the publishing step: direct and then the backlog, or stored; `Deliveries.EventOutcome` says what that sends |
| KeyspaceModules.KeyspaceModule.CheckConnection | library.c:138-158 | keeps, closes or reopens the connection and drains after reopening; `Deliveries.TimerOutcome` says what that sends |
| KeyspaceModules.KeyspaceModule.FireTimer | library.c:133-162 | is the timer step on connection, queue and timers, with the outcome of `Deliveries.TimerOutcome` |
| KeyspaceModules.KeyspaceModule.ArmLazily | library.c:180-187 | connects and creates a timer if none is current |
| KeyspaceModules.KeyspaceModule.AnyMaskAdmits | library.c:192-206 | the scan finds a mask exactly when one accepts the key |
| KeyspaceModules.KeyspaceModule.OnKeyspaceEvent | library.c:180-210 | is the event step on the whole state |
| KeyspaceModules.KeyspaceModule.SetupConfig | library.c:226-292 | is the configuration step, with the early return on a bad delivery mode; `Configuration.ConfiguredByPosition` says field by field what it sets |
| KeyspaceModules.KeyspaceModule.OnLoad | library.c:541-592 | is the loading step; `Setup.LoadedState` says what it leaves, from the arguments |
| KeyspaceModules.KeyspaceModule.ConnectAmqpCommand | library.c:319-345 | is the connect step |
| KeyspaceModules.KeyspaceModule.DisconnectAmqpCommand | library.c:347-373 | is the disconnect step: stops the current timer only |
| KeyspaceModules.KeyspaceModule.SetupFallbackStorageSizeCommand | library.c:375-386 | sets the limit modulo the word size and reads the length |
| KeyspaceModules.KeyspaceModule.Execute | library.c:388-461 | every command is its step on the whole state |
| KeyspaceModules.KeyspaceModule.RedisCommand | library.c:410-461 | a command typed by a client broadcasts its arguments joined, and then runs |
| KeyspaceModules.KeyspaceModule.ClusterMessageReceiver | library.c:463-506 | is the receiving step: split, dispatch by name, run |
| Deliveries.DrainOutcome | library.c:34-69 | a drain sends, in order, as many stored events as the broker takes in a row, two calls each, and keeps the rest; bad frames close the connection, a refusal does not |
| Deliveries.TimerOutcome | library.c:133-162 | a due timer leaves a connection with good frames alone, otherwise reconnects and offers the whole backlog or ends without connection, and hands over to the next timer |
| Deliveries.TimerEmptiesBacklogIff | library.c:142-159 | a timer that reopens the connection leaves nothing stored exactly if the broker takes every stored event, and then has sent all, oldest first |
| Deliveries.TimerFrame | library.c:133-138 | a timer that is not pending does nothing, and with forwarding off it only goes away |
| Deliveries.EventOutcome | library.c:112-131 | an admitted event is stored without a connection, after bad frames, which close it, and after a refusal; otherwise it is sent and the whole backlog offered after it |
| Deliveries.EventEmptiesBacklogIff | library.c:119-124 | an accepted event leaves nothing stored exactly if the broker takes every stored event too |
| Deliveries.EventFrame | library.c:180-210 | on a replica or with forwarding off an event changes nothing; otherwise the first one connects and starts a timer, and one that no mask admits does no more |
| Deliveries.NothingStaysStored | README.md:19 | with a healthy broker, the next timer and one more event send everything stored, the backlog first if the connection was lost |
| Deliveries.IdleBacklogWaits | library.c:142-151 | while a connection holds, any number of timers send nothing of the backlog |
| Deliveries.ConnectLeavesBacklog | library.c:319-345 | a connect command and any number of timers after it leave the backlog stored, even with a healthy broker |
| Deliveries.ConnectCommandOutcome | library.c:319-345 | connect opens a null connection and then starts forwarding and a timer exactly if that works; it changes nothing about an existing one, not even half open |
| Deliveries.DisconnectCommandOutcome | library.c:347-373 | disconnect leaves no connection, forwarding off and no current timer, and changes nothing else |
| RunInduction.RunKeeps | library.c:34-131 | induction over runs: what shipping, storing and direct publishing keep, every run keeps |
| BacklogProperties.NothingIsLost | library.c:34-131 | over any run every admitted event is sent, evicted or still stored, exactly once |
| BacklogProperties.BacklogKeepsOrder | library.c:34-69 | over any run the list is the unshipped suffix of everything pushed, and the backlog was published in arrival order, none twice |
| BacklogProperties.DrainPublishesPrefix | library.c:34-69 | a drain publishes a prefix of the list in order and leaves the rest, the failed message included |
| BacklogProperties.FreshEventOvertakes | library.c:119-127 | an accepted fresh event goes out before everything stored, so the order of arrival is broken exactly if the list was not empty |
| StorageLimit.BelievedLengthIsExactWithoutGrowth | library.c:51-94 | over any run after loading the believed length is the real one minus the unsynced growth modulo the word size, so it is right exactly without growth |
| StorageLimit.OutageLength | library.c:77-94 | the length of the list after any number of events stored in an outage |
| StorageLimit.OutageKeepsLimitIff | library.c:77-94 | an outage after a sync respects the limit exactly when the list was full or everything fits |
| StorageLimit.LimitIsKeptIff | library.c:34-94 | after a sync, over any sequence of arriving and shipped events, when the list never exceeds the larger of the limit and its length |
| StorageRuns.ResizeSyncs | library.c:71-104 | every accepted command that may change the size leaves the believed length right |
| StorageRuns.StepTraffic | library.c:34-162 | any other event changes the queue by the events it stores or ships, and not the limit |
| StorageRuns.RunIsTraffic | library.c:34-162 | between two changes of the size, the queue is what the traffic of the run makes of it |
| StorageRuns.RunKeepsLimitIff | library.c:34-162 | over any run between two changes of the size, exactly when the list never exceeds the larger of the limit and its length at the start |
| StorageLimit.LimitOneHoldsTwo | library.c:77-94 | a limit of one holds two events |
| StorageLimit.OutageKeepsNewest | library.c:77-94 | a list of at most one event at a believed limit keeps only the newest event |
| StorageLimit.StorageCollapsesAfterDrain | library.c:51-94 | a case of early dropping: after an outage and a full drain the next outage keeps only its newest event |
| Evictions.OnlyFullEvictsIff | library.c:51-94 | over any traffic, exactly when events are dropped from a full list only |
| Evictions.NothingEvictedIff | library.c:51-94 | over any traffic from below the limit, exactly when nothing is dropped at all |
| Evictions.RunLosesNoneEarlyIff | library.c:34-162 | over any run between two changes of the size, exactly when events are dropped from a full list only |
| Evictions.RunEvictsNothingIff | library.c:34-162 | over any such run from below the limit, exactly when nothing is dropped and the limit makes no difference |
| Evictions.OneShippedOneLost | library.c:51-94 | a concrete loss from a list with room, under every limit of two or more |
| NegativeSizes.NegativeSizeIsHuge | library.c:375-386 | a negative size becomes a limit of at least 2^63, with the list kept and its length right |
| NegativeSizes.NothingIsStoredIff | library.c:77-131 | over any run nothing is stored exactly if nothing was and the broker accepts every event that is to be forwarded |
| NegativeSizes.NegativeSizeIsNoLimitIff | library.c:37-97 | over any run after a size of -m, exactly when nothing is dropped and the queue is the one without a limit |
| NegativeSizes.MinusOneStoresEverything | library.c:77-94 | after a size of -1 every event of an outage is stored |
| NegativeSizes.MinusOneDropsOne | library.c:51-94 | after a size of -1 on an empty list, an event is dropped once one was stored and shipped |
| StorageOff.OffStaysEmpty | library.c:37-104 | as a negative size was meant, the list is deleted and stays empty over every run |
| StorageOff.WrittenIsOffIff | library.c:34-162 | with an empty list a run is the one that was meant exactly if the broker accepts every event that is to be forwarded |
| StorageLimit.CountingKeepsLimit | library.c:77-94 | if storing counted, the believed length would be exact and the limit kept over any sequence of queue operations |
| CountedStorage.StoreKeeps | library.c:77-94 | if storing counted, only a full list would drop an event |
| CountedStorage.RunCountedIsExact | library.c:34-162 | over any run of the module with counting, size changes included, the believed length is right |
| CountedStorage.CountedRunKeepsPromise | library.c:34-162 | over any run with counting, the limit is kept and events are dropped from a full list only |
| ConnectionProperties.EveryReachableStateIsConsistent | library.c:133-373 | in every reachable state an open connection implies forwarding enabled and a timer pending, the current timer is pending, events arm at most once, and timers number at most those armed lazily plus successful connects |
| ConnectionProperties.ConnectAddsATimer | library.c:338-341 | a successful connect command adds a timer and stops none |
| ConnectionProperties.TwoTimersCanBePending | library.c:180-187 | a run that ends with a stray timer pending after disconnecting |
| ConnectionProperties.SilenceAfterDisconnect | library.c:347-373 | from a disconnect to the next connect, along every run, the connection stays null and nothing is published or stored |
| ConnectionProperties.TimersDieInSilence | library.c:133-137 | along every run after a disconnect without a connect, the timers it did not stop disappear as they fire and none is added |
| Replication.DispatchIff | library.c:463-506 | each branch of the receiver is selected by its own registered name only, and that of keymask_set by none |
| Replication.DocumentedNames | library.h:7-13 | the branch each registered name selects |
| Replication.OtherMessagesAreIgnored | library.c:467-474 | a message of another type, an empty one and an unknown name change nothing |
| Replication.ReceiveFaithful | library.c:311-317 | a transmissible command has the same effect when received, except keymask_set |
| Replication.NodesAgreeIff | library.c:463-506 | two nodes with equal configuration stay equal after a command and its broadcast exactly when it is not keymask_set or changes nothing |
| Replication.MaskSetDiverges | library.c:496 | a keymask_set that leaves two nodes with different masks |
| Replication.OtherSpellingIsIgnored | library.c:463-506 | a command spelled in another way is not repeated by the others |
| Convergence.SenderConfig | library.c:410-461 | along any run only the commands typed on a node change its configuration |
| Convergence.ReceiverConfig | library.c:463-506 | along any run a node that receives broadcasts follows exactly those commands whose names it knows |
| Convergence.KnownCommands | library.c:463-506 | as written it knows all names but keymask_set, with the name that was meant all of them |
| Convergence.LaterAgreesIff | library.c:226-461 | configurations with different masks become equal under the same commands exactly if one of these overwrites the masks |
| Convergence.NodesConvergeIff | library.c:311-506 | whatever else happens on them, a sender and a node receiving its broadcasts end with equal masks, mode, limit and settings exactly if each keymask_set is overwritten later or sets what the receiver has |
| Convergence.MeantNodesConverge | library.c:496 | with the name that was meant they always end equal |
| PolynomialDivision.DivideGivesRemainder | debug_redis_cluster/redis-trib.rb:1255-1262 | bitwise division leaves a remainder of the message times x^16 by x^16+x^12+x^5+1 |
| PolynomialDivision.RemainderIsUnique | debug_redis_cluster/redis-trib.rb:1255-1262 | there is only one remainder |
| CrcTable.TableIsCorrect | debug_redis_cluster/redis-trib.rb:1265-1298 | each of the 256 table entries is eight division steps of its index |
| Crc16.NextByte | debug_redis_cluster/redis-trib.rb:1259 | one table lookup is eight division steps |
| Crc16.CrcDivides | debug_redis_cluster/redis-trib.rb:1256-1262 | the register holds the division of all bits read so far |
| Crc16.CrcIsTheRemainder | debug_redis_cluster/redis-trib.rb:1256-1262 | for every byte string the CRC is the remainder and nothing else is |
| Crc16.Compute | debug_redis_cluster/redis-trib.rb:1256-1262 | the table-driven loop computes it |
| Crc16.CheckValue | debug_redis_cluster/redis-trib.rb:1253 | the documented check value 0x31C3 |
| BinaryNumbers.LastFourteenDigits | debug_redis_cluster/redis-trib.rb:1314 | the value of a register modulo 16384 is the binary number of its last fourteen coefficients |
| BinaryNumbers.NumberIsInjective | debug_redis_cluster/redis-trib.rb:1314 | as many digits with the same number are the same digits |
| KeySlot.KeyToSlot | debug_redis_cluster/redis-trib.rb:1302-1315 | a slot below 16384: the binary number of the last fourteen coefficients of the remainder that the hashed part leaves |
| KeySlot.SlotIsUnique | debug_redis_cluster/redis-trib.rb:1302-1315 | no other number is a slot of the key |
| KeySlot.CheckSlot | debug_redis_cluster/redis-trib.rb:1253-1314 | the documented check input has the slot 12739 |
| KeySlot.HashedPartIsUnique | debug_redis_cluster/redis-trib.rb:1303-1313 | every key has one hashed part: the first tag if not empty, or all of it |
| KeySlot.SameTagSameSlot | debug_redis_cluster/redis-trib.rb:1303-1314 | keys with the same tag share the slot of the tag |
| KeySlot.EmptyBracesHashWholeKey | debug_redis_cluster/redis-trib.rb:1305-1306 | first braces that are empty make the whole key count, even if a tag follows |
| SlotRanges.CompressIsExact | debug_redis_cluster/redis-trib.rb:219-234 | the ranges are ordered, disjoint and maximal, and denote exactly the slots |
| SlotRanges.CanonicalIsUnique | debug_redis_cluster/redis-trib.rb:226-234 | no other such ranges denote them |
| SlotRanges.ExamplePrints | debug_redis_cluster/redis-trib.rb:211-240 | how adjacent and single slots print, by example |
| SlotRanges.BracketedAddNothing | debug_redis_cluster/redis-trib.rb:139-155 | bracketed tokens, wherever they stand, add no slot |
| SlotRanges.LineReadsBack | debug_redis_cluster/redis-trib.rb:139-155 | printed tokens with any bracketed ones among them read back as the same slots |
| SlotRanges.PrintedSlotsReadBack | debug_redis_cluster/redis-trib.rb:140-155 | the printed tokens read back give the same set of slots |
| ClusterNodes.ClusterNode.AddSlots | debug_redis_cluster/redis-trib.rb:173-178 | adds all slots of a range, which may be empty |
| ClusterNodes.ClusterNode.SetAsReplica | debug_redis_cluster/redis-trib.rb:180-183 | records the master |
| ClusterNodes.ClusterNode.LoadSlots | debug_redis_cluster/redis-trib.rb:139-156 | reads the slot tokens, skipping bracketed ones |
| ClusterNodes.ClusterNode.SlotTokens | debug_redis_cluster/redis-trib.rb:219-240 | prints tokens that denote exactly the node's slots |
| Interleaving.GroupByHost | debug_redis_cluster/redis-trib.rb:552-556 | one queue per host, each with the host's nodes in order, the hosts in the order they first appear |
| Interleaving.Interleave | debug_redis_cluster/redis-trib.rb:560-578 | terminates with the nodes taken from the queues in turns |
| Interleaving.RoundRobinIsFair | debug_redis_cluster/redis-trib.rb:562-578 | in every prefix two hosts differ by at most one node unless the smaller is exhausted |
| Interleaving.RoundRobinOnHost | debug_redis_cluster/redis-trib.rb:562-578 | every host keeps all its nodes in order |
| Spreading.RoundRobinInTurn | debug_redis_cluster/redis-trib.rb:562-578 | in every prefix an earlier host has at least as many nodes as a later one unless it is exhausted |
| Spreading.Spread | debug_redis_cluster/redis-trib.rb:552-578 | the whole step keeps every host's nodes in order, and every prefix balanced and in turn |
| Spreading.SpreadIsUnique | debug_redis_cluster/redis-trib.rb:552-578 | only one order of the nodes is like that |
| SlotAllocation.AllocateSlots | debug_redis_cluster/redis-trib.rb:585-598 | each master gets its range of slots and no other, whatever the rounding |
| SlotAllocation.RangesAreDisjoint | debug_redis_cluster/redis-trib.rb:587-598 | whatever the rounding, the ranges ascend and none is empty |
| SlotAllocation.RangesLeaveNoGap | debug_redis_cluster/redis-trib.rb:587-598 | whatever the rounding, there is no gap between ranges |
| SlotAllocation.NoTies | debug_redis_cluster/redis-trib.rb:590 | up to 16384 masters no exact end lies half way between two slots |
| SlotAllocation.RoundIsStable | debug_redis_cluster/redis-trib.rb:590 | an error below 1/(2M) of a slot does not change a rounded end |
| SlotAllocation.SmallErrorsAreAccurate | debug_redis_cluster/redis-trib.rb:586-598 | small single errors accumulate to less than that |
| SlotAllocation.FirstSlotIsExact | debug_redis_cluster/redis-trib.rb:588-598 | up to 16384 masters the ranges are those of integer arithmetic, and the clamps change nothing |
| SlotAllocation.SlotsAreTiled | debug_redis_cluster/redis-trib.rb:585-598 | the ranges tile 0..16383, and sizes differ by at most one, despite accumulated rounding errors |
| SlotAllocation.LastSlotIsLegalIff | debug_redis_cluster/redis-trib.rb:591-594 | the last range ends at 16383 exactly with at most 16384 masters, and beyond that whatever the rounding |
| ReplicaAssignment.Pick | debug_redis_cluster/redis-trib.rb:628-638 | the first spare node on another host, or the first one if there is none |
| ReplicaAssignment.RoundSplits | debug_redis_cluster/redis-trib.rb:611-652 | no spare node is lost, and none is given twice |
| ReplicaAssignment.EveryMasterIsServed | debug_redis_cluster/redis-trib.rb:541-652 | the first round gives every master exactly R replicas, the second one more to as many masters as there are nodes over |
| ReplicaAssignment.AllNodesAreUsedIff | debug_redis_cluster/redis-trib.rb:601-607 | all nodes are used exactly when N mod (R+1) is at most the number of masters |
| ReplicaAssignment.OneOfNineteenIsUnused | debug_redis_cluster/redis-trib.rb:601-607 | with 19 nodes and 4 replicas one is not |
| ReplicaAssignment.ServedAvoidsHost | debug_redis_cluster/redis-trib.rb:627-638 | a master gets as many nodes on other hosts as any choice could contain |
| ReplicaAssignment.ServeMaster | debug_redis_cluster/redis-trib.rb:613-650 | the nodes picked for a master replicate it, the others are untouched, and the count is that of the spare nodes |
| ReplicaAssignment.ServeMasters | debug_redis_cluster/redis-trib.rb:612-651 | a round over the masters, each replica following the master it was given to |
| ReplicaAssignment.AssignReplicas | debug_redis_cluster/redis-trib.rb:611-652 | after both rounds every spare node that is not left over follows a master, and each master has as many replicas as it was given |
| ReplicaAssignment.ReplicasCounted | debug_redis_cluster/redis-trib.rb:611-652 | nodes given in both rounds are different, so they count as that many replicas |
| ClusterCreation.SameOnEveryHost | debug_redis_cluster/redis-trib.rb:552-578 | equal nodes on every host is equality up to order |
| ClusterCreation.ChooseMasters | debug_redis_cluster/redis-trib.rb:560-581 | masters and spare nodes together are the interleaved nodes, a permutation of all; each host gives its first nodes, no host two more than another that has a node left |
| ClusterCreation.MastersAreSpread | debug_redis_cluster/redis-trib.rb:543-581 | any beginning of the interleaved nodes is spread evenly over the hosts |
| ClusterCreation.RangesCover | debug_redis_cluster/redis-trib.rb:585-598 | every slot is served by exactly one master |
| ClusterCreation.ThreeMastersIff | debug_redis_cluster/redis-trib.rb:968-977 | the number of nodes the error message asks for is exactly what makes three masters |
| ClusterCreation.AllocSlots | debug_redis_cluster/redis-trib.rb:539-653 | fresh nodes become masters that cover all slots and replicate nobody, R replicas without slots for each master and one more for the first ones while nodes are over, and a known number of unused nodes; the masters are spread evenly over the hosts, and every other node follows the master the two rounds give it to |
| Resharding.SortBySize | debug_redis_cluster/redis-trib.rb:762 | a permutation of the sources, biggest first, ties in any order |
| Resharding.ComputeReshardTable | debug_redis_cluster/redis-trib.rb:753-782 | the plan for the sorted sources, or the error if sources have no slots at all |
| Resharding.TableIsSafe | debug_redis_cluster/redis-trib.rb:776-780 | never more moves than asked for, and only slots that their source owns, whatever the rounding |
| Resharding.PlanMoves | debug_redis_cluster/redis-trib.rb:766-781 | the plan has exactly the slots the sources give |
| Resharding.DifferentSourcesMoveOnce | debug_redis_cluster/redis-trib.rb:766-781 | different sources never make the plan repeat a source and slot, whatever the rounding |
| ReshardQuantities.QuotaIsNear | debug_redis_cluster/redis-trib.rb:769-774 | a quota is within one slot of the proportional share, above it for the biggest source only |
| ReshardQuantities.PlanIsProportional | debug_redis_cluster/redis-trib.rb:766-781 | up to the total every source gives exactly its quota, the guard drops nothing, and k sources miss at most k - 2 slots |
| ReshardQuantities.AllAreMovedIff | debug_redis_cluster/redis-trib.rb:769-781 | how many slots a plan misses, and that it misses none exactly when the fractions of the shares add up to one slot, or to nothing if the first share is whole |
| ReshardQuantities.NoMoveIsRepeatedIff | debug_redis_cluster/redis-trib.rb:766-781 | the plan repeats no source and slot exactly when every source listed again has a share of less than one slot |
| ReshardQuantities.EverythingIsMoved | debug_redis_cluster/redis-trib.rb:766-781 | asked for the total or more, the plan moves every slot |
| ReshardQuantities.TwiceListedMovesTwice | debug_redis_cluster/redis-trib.rb:887-925 | a node listed twice has its slots moved twice |
| ReshardQuantities.OneSlotShort | debug_redis_cluster/redis-trib.rb:769-774 | a plan one slot short |

## Left out

- Memory: allocation sizes, frees and string lifetimes of utils.c and library.c; the array of masks has capacity in elements and unbounded size.
- StringArrays.StringArray.Add: nothing is stated for a capacity of 0, which doubling does not enlarge; the module starts with 8.
- A negative size given through config_set or connect: `StorageOff` models what was meant for the command that sets the size, and the runs after it.
- The receiver reads its payload up to a NUL; the model takes the payload as that string and not as bytes with a length.
- KeyspaceModules.KeyspaceModule.AmqpWaitFrame: one scripted answer stands for the loop over frames and their status codes, because frames belong to the AMQP library.
- AMQP login and sockets.
- What the AMQP library does with the settings; the model stores, replicates and compares them.
- `strtol`: how a number is read from text is one arbitrary function, shared by all nodes; the cuts to the C types are modelled.
- Several Redis databases: the fallback list is in one selected database.
- Replies to clients, arity errors as replies, logging, and the registration of commands and event types at load.
- Message delivery between nodes: `Convergence.NodesConvergeIff` assumes that broadcasts arrive in order and none is lost.
- The exact results of IEEE arithmetic: rounding is an arbitrary error, bounded where a theorem says so; the reshard quantities are for exact arithmetic.
- The bookkeeping of migrating and importing slots, the joining of printed ranges by commas, and the other fields of a node's line.
- Everything in redis-trib.rb that talks to nodes or to the user: joining, fixing, moving slots, option parsing.
