# Fast DDS examples: the logic beneath the transport

This project models the application logic of a set of Fast DDS example programs and proves
properties of it. The DDS library calls are abstracted:

- a sample the reader delivers is a method argument, paired with a `SampleInfo` that
  carries only `valid_data`;
- each `write` is an append to a ghost log of what that writer was given;
- where the code checks a creation call, that call's outcome is a boolean parameter
  (the `init` functions, and the history subscriber's `create_datareader`). Where the
  code does not check it (the multi-topic subscriber's `create_topic` and
  `create_datareader`), the handle is not modelled at all.

The programs covered:

- **Gap tracker** (`Reliability`). Ex3's subscriber keeps a map from received sequence
  numbers to their critical flag and a 32-bit continuous low-water mark. After every
  sample it reports the numbers missing between the least and the greatest received,
  and the critical ones received.
- **Pause publisher** (`PausePublisher`). Ex3's publisher numbers its samples and makes
  every fifth one critical. While paused it queues the critical samples and drops the
  rest; the next unpaused publish flushes the queue to the reliable writer, in order.
- **History window** (`History`). Ex4's listener has an append-only history and a 32-bit
  sample counter. It shows the `min(size, limit)` most recent samples. The subscriber's
  KEEP_LAST/KEEP_ALL switch only sets that limit (5 or 30).
- **Ownership gate** (`Ownership`, `SteeringControl`). Ex5's steering subscriber keeps a
  table of three controllers and the set of strengths of those switched on. It accepts a
  command exactly when the strength its controller name maps to is in that set.
  Ex6_ownership/SteeringSubscriber.cpp is a line-for-line copy and is covered by the same
  model and the same line numbers. The publisher's type table is tied to the subscriber's
  name table by a round-trip lemma.
- **Service discovery** (`DiscoveryAnnounce`, `Discovery`).
  - The publisher has a capability table and a status that cycles with the call count.
  - The subscriber keeps a registry upserted by service name and lists it in name order,
    with a colour per status.
  - On command, it prunes services whose own timestamp is more than 10^10 ns before now.
- **Topic subscriptions** (`VehicleSystems`). Ex2's multi-topic subscriber keeps a reader
  map and a status map over four fixed topic names.

Shared modules:

- `Common`: uint32_t arithmetic mod 2^32, `Option`, `std::to_string`, and `std::stoi`.
  The `stoi` model covers white space, sign, the longest digit prefix and int range.
- `Ordering`: the key order of a `std::map<std::string, …>`.
- `Samples`: the sample types, keeping only the non-float fields.

Objects that the C++ shares by reference are single Dafny objects that both sides point
to (`StrengthSet`, `ServiceRegistry`). Globals and function statics (`g_is_paused`,
`g_running`, the `count` in `publish`) are fields.

## Model

| member | source | states |
|---|---|---|
| Common.IncDecInverse | Ex3_reliability/ReliabilitySubscriber.cpp:45-50 | uint32_t `+1` and `-1` undo each other; 0 - 1 wraps to 0xFFFFFFFF and 0xFFFFFFFF + 1 wraps to 0 |
| Common.IncCounts | Ex3_reliability/ReliabilityPublisher.cpp:177 | a uint32_t counter bumped once per call equals the number of calls mod 2^32 |
| Common.Decimal | Ex3_reliability/ReliabilityPublisher.cpp:146 | `std::to_string` of a non-negative number: non-empty digits only, no leading zero |
| Common.DecimalRoundTrip | Ex3_reliability/ReliabilityPublisher.cpp:146 | reading the digits of `to_string(n)` back gives n |
| Common.DecimalInjective | Ex3_reliability/ReliabilityPublisher.cpp:146 | distinct numbers have distinct decimal texts |
| Common.Stoi | Ex5_ownership/SteeringPublisher.cpp:177 | `std::stoi` yields a value only inside int's range (None where it throws) |
| Common.StoiOfDecimal | Ex5_ownership/SteeringPublisher.cpp:177 | `stoi` reads back what `to_string` wrote, for every non-negative int |
| Common.DigitRunStops | Ex3_reliability/ReliabilityPublisher.cpp:146-149 | the digit run of a number's text stops where a non-digit suffix begins |
| Ordering.LexTransitive | Ex6_ServiceDiscovery/ServiceDiscoverySubscriber.cpp:65 | the map's key order is transitive |
| Ordering.LexTotal | Ex6_ServiceDiscovery/ServiceDiscoverySubscriber.cpp:65 | any two distinct keys are ordered one way or the other |
| Ordering.LexAsymmetric | Ex6_ServiceDiscovery/ServiceDiscoverySubscriber.cpp:65 | never both a < b and b < a |
| Ordering.LeastName | Ex6_ServiceDiscovery/ServiceDiscoverySubscriber.cpp:195 | `begin()` of a non-empty map: a key below every other key |
| Ordering.AscendingNames | Ex6_ServiceDiscovery/ServiceDiscoverySubscriber.cpp:65 | iterating a map visits every key exactly once, in strictly ascending order |
| Reliability.ReliabilityListener.constructor | Ex3_reliability/ReliabilitySubscriber.cpp:29-32 | nothing received, nothing missing, mark 0 |
| Reliability.ReliabilityListener.Receive | Ex3_reliability/ReliabilitySubscriber.cpp:38-87 | an invalid sample changes nothing. A valid one overwrites its number's flag; the missing set becomes `[min,max]` minus the received set; the mark advances from `seq - 1` (first sample) or from itself through received successors. A first sample puts the mark on `seq`; a repeat leaves keys, missing set and mark unchanged. The report carries the topic, number, flag, total, ascending missing list and ascending critical list |
| Reliability.ReliabilityListener.OnDataAvailable | Ex3_reliability/ReliabilitySubscriber.cpp:34-90 | after a run of samples the received map is the run folded over the old map. There is one report per valid sample: the k-th carries that sample's number and flag, and the total, missing list and critical list of the map just after that sample was recorded |
| Reliability.Snapshots | Ex3_reliability/ReliabilitySubscriber.cpp:37-41 | one entry per valid sample of a run, with the received map just after it; that map holds the sample's number with the sample's flag |
| Reliability.AdvanceMark | Ex3_reliability/ReliabilitySubscriber.cpp:49-51 | the mark ends `steps` successors after the anchor; every one of those successors is received, and the next number is not |
| Reliability.MarkNeverWrapsBack | Ex3_reliability/ReliabilitySubscriber.cpp:44-51 | unless 0xFFFFFFFF is received or is the anchor, advancing only increases the mark as an integer |
| Reliability.BlockedMarkStays | Ex3_reliability/ReliabilitySubscriber.cpp:49-51 | a mark whose successor is not received does not move |
| Reliability.SingleKeyMark | Ex3_reliability/ReliabilitySubscriber.cpp:44-51 | with one number received, the mark anchored at `seq - 1` (0xFFFFFFFF for seq 0) advances exactly once, onto `seq` |
| Reliability.MarkAfterRecord | Ex3_reliability/ReliabilitySubscriber.cpp:41-51 | after recording a number and advancing, the mark is a received number; for a first sample it is that sample; for a repeat it stays put |
| Reliability.KeyRange | Ex3_reliability/ReliabilitySubscriber.cpp:56-57 | `begin()->first` and `rbegin()->first` are the least and greatest received numbers |
| Reliability.MissingBetween | Ex3_reliability/ReliabilitySubscriber.cpp:54-63 | the missing set is the numbers of `[min,max]` not received. It is disjoint from the received set, never holds min or max, and lies strictly between them |
| Reliability.NothingMissingIffContiguous | Ex3_reliability/ReliabilitySubscriber.cpp:54-63 | nothing is missing if and only if every number from min to max was received |
| Reliability.ScanGaps | Ex3_reliability/ReliabilitySubscriber.cpp:54-63 | the scan over `[first,last]` inserts exactly the numbers not received, listed ascending without repeats |
| Reliability.CriticalScan | Ex3_reliability/ReliabilitySubscriber.cpp:82-87 | the critical listing holds exactly the numbers whose latest flag is true, ascending |
| Reliability.MissingLine | Ex3_reliability/ReliabilitySubscriber.cpp:72-78 | "None" is printed if and only if the missing list is empty |
| Reliability.JoinNumbers | Ex3_reliability/ReliabilitySubscriber.cpp:75-77 | a non-empty missing list prints as text starting with a digit, so never as "None" |
| Reliability.RecordedKeys | Ex3_reliability/ReliabilitySubscriber.cpp:37-41 | a run adds exactly the numbers of its valid samples to the key set |
| Reliability.RecordedLatest | Ex3_reliability/ReliabilitySubscriber.cpp:41 | each stored flag is the flag of the latest valid sample with that number |
| Reliability.RecordedSize | Ex3_reliability/ReliabilitySubscriber.cpp:41 | a run grows the map by at most its length |
| Reliability.GapsIgnoreArrivalOrder | Ex3_reliability/ReliabilitySubscriber.cpp:54-63 | two runs with the same valid numbers, in any order and with any repeats, give the same key set and the same missing set |
| Reliability.ExampleGaps | Ex3_reliability/ReliabilitySubscriber.cpp:54-63 | receiving 1, 2, 4, 5, 7 gives the missing set {3, 6} |
| Reliability.ScanNeverFinishesAtMax | Ex3_reliability/ReliabilitySubscriber.cpp:58 | with a 32-bit counter and greatest number 0xFFFFFFFF, the scan as written does not finish for any number of iterations |
| Reliability.ScanAsWrittenBelowMax | Ex3_reliability/ReliabilitySubscriber.cpp:58-62 | below 0xFFFFFFFF the scan as written finishes after `last - first + 1` iterations with the gap set |
| PausePublisher.MessageRoundTrip | Ex3_reliability/ReliabilityPublisher.cpp:146-150 | "Message #n", with " (CRITICAL)" appended when critical, parses back to n and the flag |
| PausePublisher.MakeSample | Ex3_reliability/ReliabilityPublisher.cpp:141-150 | the sample carries the current number and the clock reading, is critical exactly when the number is a multiple of 5, and its text encodes both |
| PausePublisher.ReliabilityPublisher.constructor | Ex3_reliability/ReliabilityPublisher.cpp:75-84 | not paused, running, number 0, empty queue, nothing written |
| PausePublisher.ReliabilityPublisher.Publish | Ex3_reliability/ReliabilityPublisher.cpp:138-179 | the number advances mod 2^32 on every call and the result is true. Unpaused: the queue goes to the reliable writer, then the sample to reliable and to best-effort, and the queue is empty. Paused: a critical sample is queued and a non-critical one dropped, with nothing written. The pause flag is untouched |
| PausePublisher.ReliabilityPublisher.Dispatch | Ex3_reliability/ReliabilityPublisher.cpp:152-174 | the three branches of `publish`, and the invariant: logs and queue hold earlier calls' samples in call order, and only critical ones wait in the queue |
| PausePublisher.ReliabilityPublisher.FlushQueue | Ex3_reliability/ReliabilityPublisher.cpp:154-159 | the reliable log gains the whole queue front to back, and the queue ends empty |
| PausePublisher.ReliabilityPublisher.HandleKey | Ex3_reliability/ReliabilityPublisher.cpp:44-51 | p/P flips only the pause flag, q/Q clears only the running flag, other keys change nothing; the queue is never touched |
| PausePublisher.QueueInPublishOrder | Ex3_reliability/ReliabilityPublisher.cpp:168-169 | until the counter wraps, queued sequence numbers are strictly increasing |
| PausePublisher.ReliableInPublishOrder | Ex3_reliability/ReliabilityPublisher.cpp:154-162 | until the counter wraps, everything the reliable writer got (flushed and direct) has strictly increasing numbers, i.e. it went out in publish order |
| History.StartIndex | Ex4_history/HistorySubscriber.cpp:69-70 | `start_idx` lies within the history and leaves exactly `min(size, limit)` rows after it |
| History.Window | Ex4_history/HistorySubscriber.cpp:69-85 | the rows shown are a suffix of the history of length `min(size, limit)`, and all of it when it fits |
| History.WindowSlides | Ex4_history/HistorySubscriber.cpp:48-72 | a new sample enters the window at the back; once the window is full the oldest row leaves at the front |
| History.Screens | Ex4_history/HistorySubscriber.cpp:46-85 | during a run, the k-th screen is the window of everything received up to the k-th valid sample |
| History.HistoryListener.constructor | Ex4_history/HistorySubscriber.cpp:31-35 | empty history, count 0, limit 5 |
| History.HistoryListener.SetDisplayLimit | Ex4_history/HistorySubscriber.cpp:37-39 | only the limit changes |
| History.HistoryListener.Receive | Ex4_history/HistorySubscriber.cpp:47-85 | the sample is appended at the back and the counter rises by 1 (mod 2^32); the rows printed are the `min(size, limit)` most recent samples in arrival order |
| History.HistoryListener.OnDataAvailable | Ex4_history/HistorySubscriber.cpp:41-89 | the history gains exactly the valid samples, in order, with one screen per valid sample |
| History.HistorySubscriber.constructor | Ex4_history/HistorySubscriber.cpp:135-143 | the listener is named "History QoS Test", empty, limit 5; subscriber running, no reader yet |
| History.HistorySubscriber.SetupKeepLastReader | Ex4_history/HistorySubscriber.cpp:102-116 | the limit becomes 5 whatever happens. The reader is KEEP_LAST depth 5 if `create_datareader` succeeds, and none if it fails. The listener's history and count are kept |
| History.HistorySubscriber.SetupKeepAllReader | Ex4_history/HistorySubscriber.cpp:118-132 | the limit becomes 30 whatever happens. The reader is KEEP_ALL max 30 if `create_datareader` succeeds, and none if it fails. The listener's history and count are kept |
| History.HistorySubscriber.SelectInitialMode | Ex4_history/HistorySubscriber.cpp:187-191 | '1' selects KEEP_LAST and any other answer KEEP_ALL, with the reader-creation outcome as above |
| History.HistorySubscriber.HandleCommand | Ex4_history/HistorySubscriber.cpp:202-213 | '1' selects KEEP_LAST, '2' KEEP_ALL, 'q' stops, others change nothing; switching keeps the running flag and never clears the history |
| Ownership.StrengthFromName | Ex5_ownership/SteeringSubscriber.cpp:104-109 | each of the three names maps to its strength (10, 20 or 30), and every other name maps to 0 |
| Ownership.ControllerName | Ex5_ownership/SteeringSubscriber.cpp:111-118 | the label is "Unknown" exactly for strengths other than 10, 20, 30 |
| Ownership.InitialControllers | Ex5_ownership/SteeringSubscriber.cpp:166-169 | ids 1, 2, 3 with strengths 10, 20, 30, all inactive |
| Ownership.LabelsMatchTable | Ex5_ownership/SteeringSubscriber.cpp:111-118 | `getControllerName` gives each table strength the label the table gives it |
| Ownership.Flip | Ex5_ownership/SteeringSubscriber.cpp:143-144 | a toggle flips that controller's flag and leaves the others alone |
| Ownership.FlipInvolution | Ex5_ownership/SteeringSubscriber.cpp:142-155 | toggling the same controller twice restores the table |
| Ownership.ActiveSetAfterFlip | Ex5_ownership/SteeringSubscriber.cpp:142-155 | a toggle inserts the controller's strength when it turns it on and erases it when it turns it off; the active set stays equal to the strengths of the active controllers |
| Ownership.SwitchOn | Ex5_ownership/SteeringSubscriber.cpp:209-210 | switching a controller on adds exactly its strength |
| Ownership.UnknownNameRejected | Ex5_ownership/SteeringSubscriber.cpp:55-58 | a name none of the three is never accepted while only table strengths are active |
| Ownership.ActiveWithinTable | Ex5_ownership/SteeringSubscriber.cpp:167-169 | the active set only ever holds 10, 20 or 30 |
| Ownership.AcceptedCount | Ex5_ownership/SteeringSubscriber.cpp:48-71 | no more commands of a run are accepted than it holds |
| Ownership.StrengthSet.constructor | Ex5_ownership/SteeringSubscriber.cpp:130 | the active set starts empty |
| Ownership.SteeringListener.constructor | Ex5_ownership/SteeringSubscriber.cpp:35-42 | type, shared set and strength stored; count 0 |
| Ownership.SteeringListener.Receive | Ex5_ownership/SteeringSubscriber.cpp:49-97 | accepted if and only if the active set is non-empty and holds the name's strength (the higher-strength loop never rejects); the count rises by 1 exactly on acceptance |
| Ownership.SteeringListener.OnDataAvailable | Ex5_ownership/SteeringSubscriber.cpp:44-101 | the count rises by the number of valid commands the rule accepts |
| Ownership.SteeringSubscriber.constructor | Ex5_ownership/SteeringSubscriber.cpp:158-170 | the controller table, an empty active set, no listener, running |
| Ownership.SteeringSubscriber.Init | Ex5_ownership/SteeringSubscriber.cpp:187-220 | true exactly when every library call succeeds; once participant, topic and subscriber exist, controller 1 is on, 10 is in the set, and a listener sharing the set exists |
| Ownership.SteeringSubscriber.ToggleController | Ex5_ownership/SteeringSubscriber.cpp:142-155 | the table is flipped at the id and the strength inserted or erased accordingly; the set stays the strengths of the active controllers |
| Ownership.SteeringSubscriber.ShowStatus | Ex5_ownership/SteeringSubscriber.cpp:222-230 | one line per controller, ids ascending, with its kind, flag and strength |
| Ownership.SteeringSubscriber.HandleCommand | Ex5_ownership/SteeringSubscriber.cpp:248-258 | '1' to '3' flip that controller and show the new table; 's' shows the table unchanged. In both cases the loop keeps running and the lines list the controllers by ascending id. 'q' stops; anything else does nothing |
| Ownership.StartUp | Ex5_ownership/SteeringSubscriber.cpp:209-212 | after construction and a successful init the active set is {10} and only controller 1 is on |
| SteeringControl.IsEmergency | Ex5_ownership/SteeringPublisher.cpp:112-125 | the emergency flag is set exactly for the EMERGENCY type |
| SteeringControl.StrengthsDistinct | Ex5_ownership/SteeringPublisher.cpp:57-70 | distinct types get distinct strengths, names and reasons |
| SteeringControl.NameRoundTrip | Ex5_ownership/SteeringPublisher.cpp:57-70 | the subscriber's name-to-strength map, applied to the name a type's commands carry, gives that type's writer strength |
| SteeringControl.AcceptedIffStrengthActive | Ex5_ownership/SteeringSubscriber.cpp:51-58 | a type's commands are accepted exactly while that type's strength is active |
| SteeringControl.SteeringPublisher.constructor | Ex5_ownership/SteeringPublisher.cpp:57-70 | the writer strength and command name follow the type |
| SteeringControl.SteeringPublisher.GenerateCommand | Ex5_ownership/SteeringPublisher.cpp:106-126 | the command gets the clock reading, the type's reason and emergency flag, keeping its name |
| SteeringControl.SteeringPublisher.Publish | Ex5_ownership/SteeringPublisher.cpp:128-130 | a freshly generated command is appended to the writer's log |
| SteeringControl.SteeringPublisher.Stop | Ex5_ownership/SteeringPublisher.cpp:155-157 | clears the running flag |
| SteeringControl.MainLaunch | Ex5_ownership/SteeringPublisher.cpp:165-184 | usage exactly when there is not one argument; a start only for a value `stoi` reads as 1, 2 or 3; "invalid" exactly for other in-range values; termination when `stoi` throws |
| SteeringControl.ExitCode | Ex5_ownership/SteeringPublisher.cpp:168-184 | exit code 1 exactly for the usage and invalid-type outcomes |
| SteeringControl.DigitArgumentsSelect | Ex5_ownership/SteeringPublisher.cpp:177-184 | "1", "2", "3" select Manual, ADAS, Emergency; "0" and "4" are invalid; "x" makes `stoi` throw |
| SteeringControl.LaunchRoundTrip | Ex5_ownership/SteeringPublisher.cpp:177-180 | every type is selected by the decimal text of its number |
| DiscoveryAnnounce.Capabilities | Ex6_ServiceDiscovery/ServiceDiscoveryPublisher.cpp:21-65 | always starts with health_check, basic_discovery. It has 6 entries for the five known types and 4 otherwise, with the custom-protocol/extensible fallback |
| DiscoveryAnnounce.CapabilitiesIdentifyType | Ex6_ServiceDiscovery/ServiceDiscoveryPublisher.cpp:28-62 | when one type is known, equal capability lists mean equal types |
| DiscoveryAnnounce.StatusForCall | Ex6_ServiceDiscovery/ServiceDiscoveryPublisher.cpp:159-170 | the status is BUSY, ERROR or ACTIVE, and the service is healthy exactly when it is not ERROR |
| DiscoveryAnnounce.ErrorExactlyAt15Mod30 | Ex6_ServiceDiscovery/ServiceDiscoveryPublisher.cpp:161-170 | ERROR comes exactly at calls n with n mod 30 = 15 |
| DiscoveryAnnounce.BusyAtMultiplesOf10 | Ex6_ServiceDiscovery/ServiceDiscoveryPublisher.cpp:161-166 | BUSY comes exactly at multiples of 10, so multiples of 30 are BUSY, not ERROR |
| DiscoveryAnnounce.ServiceDiscoveryPublisher.constructor | Ex6_ServiceDiscovery/ServiceDiscoveryPublisher.cpp:78-100 | name, type, endpoint and port copied, healthy, capabilities from the type |
| DiscoveryAnnounce.ServiceDiscoveryPublisher.Publish | Ex6_ServiceDiscovery/ServiceDiscoveryPublisher.cpp:155-172 | the call count rises by 1; the record gets the clock reading and the count's status and health, and is written; nothing else in it changes |
| DiscoveryAnnounce.ServiceDiscoveryPublisher.Stop | Ex6_ServiceDiscovery/ServiceDiscoveryPublisher.cpp:196-198 | clears the running flag |
| Discovery.Pruned | Ex6_ServiceDiscovery/ServiceDiscoverySubscriber.cpp:195-202 | a prune keeps exactly the entries that are not stale, unchanged, and adds none |
| Discovery.PruneIdempotent | Ex6_ServiceDiscovery/ServiceDiscoverySubscriber.cpp:195-202 | pruning twice at the same time is pruning once |
| Discovery.PruneBoundary | Ex6_ServiceDiscovery/ServiceDiscoverySubscriber.cpp:196 | the comparison is strict: an entry exactly 10 s old survives, one nanosecond older is removed |
| Discovery.UpsertRefreshes | Ex6_ServiceDiscovery/ServiceDiscoverySubscriber.cpp:40 | a record at most 10 s old, once upserted, survives a prune and is kept as received |
| Discovery.UpsertNeverRemoves | Ex6_ServiceDiscovery/ServiceDiscoverySubscriber.cpp:33-45 | receiving never removes a service |
| Discovery.StatusColour | Ex6_ServiceDiscovery/ServiceDiscoverySubscriber.cpp:69-76 | red exactly for ERROR, yellow exactly for BUSY, green otherwise |
| Discovery.ServiceRegistry.constructor | Ex6_ServiceDiscovery/ServiceDiscoverySubscriber.cpp:113 | the registry starts empty |
| Discovery.ServiceListener.constructor | Ex6_ServiceDiscovery/ServiceDiscoverySubscriber.cpp:30-31 | the listener refers to the subscriber's registry |
| Discovery.ServiceListener.UpdateDisplay | Ex6_ServiceDiscovery/ServiceDiscoverySubscriber.cpp:48-101 | an empty registry shows the placeholder. Otherwise there is one block per service, names ascending, each with its record and its status colour |
| Discovery.ServiceListener.Receive | Ex6_ServiceDiscovery/ServiceDiscoverySubscriber.cpp:38-44 | upsert by name: that entry becomes the record, the others are unchanged, the size grows by at most 1, and the screen shows the new registry |
| Discovery.ServiceListener.OnDataAvailable | Ex6_ServiceDiscovery/ServiceDiscoverySubscriber.cpp:33-46 | the registry becomes the run of valid records upserted in order |
| Discovery.PruneLoop | Ex6_ServiceDiscovery/ServiceDiscoverySubscriber.cpp:195-202 | the erase-while-iterating loop leaves the pruned registry. It erases exactly the stale names, in ascending name order |
| Discovery.ServiceDiscoverySubscriber.constructor | Ex6_ServiceDiscovery/ServiceDiscoverySubscriber.cpp:117-124 | empty registry, no listener, running |
| Discovery.ServiceDiscoverySubscriber.Init | Ex6_ServiceDiscovery/ServiceDiscoverySubscriber.cpp:126-163 | true exactly when every library call succeeds; the listener is created on the subscriber's registry once the subscriber exists |
| Discovery.ServiceDiscoverySubscriber.PruneStale | Ex6_ServiceDiscovery/ServiceDiscoverySubscriber.cpp:187-202 | the registry becomes its prune at `now`; the names erased are exactly the stale ones |
| Discovery.ServiceDiscoverySubscriber.HandleCommand | Ex6_ServiceDiscovery/ServiceDiscoverySubscriber.cpp:180-213 | l/L shows the unchanged registry. c/C prunes, reporting exactly the stale names in ascending order, then shows. Neither stops the loop. q/Q stops; anything else is reported invalid. Only c/C removes anything |
| VehicleSystems.ReaderFor | Ex2_multi_topic/VehicleSystemsSubscriber.cpp:139-167 | a reader is built exactly for the four topic names |
| VehicleSystems.ReadersDistinct | Ex2_multi_topic/VehicleSystemsSubscriber.cpp:140-163 | the four names get four different DDS topics |
| VehicleSystems.StatusLines | Ex2_multi_topic/VehicleSystemsSubscriber.cpp:196-199 | one line per status entry, names ascending, each with its flag |
| VehicleSystems.VehicleSystemsSubscriber.constructor | Ex2_multi_topic/VehicleSystemsSubscriber.cpp:127 | no readers and no status entries |
| VehicleSystems.VehicleSystemsSubscriber.SubscribeTopic | Ex2_multi_topic/VehicleSystemsSubscriber.cpp:131-173 | true exactly for the four names. An already-subscribed or unknown name changes nothing; otherwise the name's reader is added and its flag set true. The invariant "flag true iff reader present" is kept |
| VehicleSystems.VehicleSystemsSubscriber.UnsubscribeTopic | Ex2_multi_topic/VehicleSystemsSubscriber.cpp:175-191 | always true. A name without a reader changes nothing, not even the status map; otherwise the reader is removed and its flag set false |
| VehicleSystems.VehicleSystemsSubscriber.Init | Ex2_multi_topic/VehicleSystemsSubscriber.cpp:206-225 | true exactly when participant and subscriber exist; then all four topics have their reader and flag true |
| VehicleSystems.VehicleSystemsSubscriber.ShowStatus | Ex2_multi_topic/VehicleSystemsSubscriber.cpp:193-200 | one line per status entry, names ascending, "Subscribed" exactly for the topics with a reader |
| VehicleSystems.VehicleSystemsSubscriber.HandleCommand | Ex2_multi_topic/VehicleSystemsSubscriber.cpp:238-259 | quit ends the loop. status lists every entry in name order. subscribe and unsubscribe make exactly the map updates of `subscribe_topic` and `unsubscribe_topic`, and subscribe succeeds exactly for the four names. Other commands leave both maps alone |

## Left out

- Fast DDS itself is not modelled: participants, topics, readers, writers, type
  registration, QoS objects and destructors. Library calls are success flags and writes
  are ghost logs.
- Reader-side QoS enforcement belongs to the library and is not modelled. This covers
  KEEP_LAST depth 5 and KEEP_ALL max 30 eviction or rejection, exclusive-ownership
  arbitration, and the lease duration. The listeners only see what the library delivers.
- Threads, mutexes, atomics, sleeps, the termios keyboard reader, `std::cin` loops and
  signal handlers are left out. Each command or key press is one method call, and the
  model assumes every call runs atomically, one at a time. Some of the code does not
  provide that atomicity (next line).
- The data race on the steering subscriber's `active_strengths_` is not modelled. The
  input thread's `toggleController` (Ex5_ownership/SteeringSubscriber.cpp:142-155, the
  same in the Ex6 copy) inserts and erases without a lock. The listener thread reads and
  iterates the same `std::set` at :51-67 before it takes `print_mutex_` at :70.
  Ownership.SteeringSubscriber.ToggleController and Ownership.SteeringListener.Receive
  are atomic in the model, so a toggle that interleaves with an acceptance decision is
  not captured.
- Console rendering is reduced to the data it shows: ANSI colours become the `Colour`
  datatype, and clock formatting is dropped. Clock reads are integer parameters `now`.
- Float fields and random generation are left out: steering angle, speed, torque, and the
  sensor readings.
- The vehicle-system, diagnostics and history publishers, the HelloWorld and domain
  programs, and VehicleDiagnosticsSubscriber are not part of this model. They are
  transport setup, random float data and display.
- The `main` functions are not modelled, apart from the steering publisher's argument
  handling. That includes ServiceDiscoveryPublisher's `main` and its `stoul`.
- VehicleSystems.VehicleSystemsSubscriber.SubscribeTopic: `register_type`,
  `create_topic` and `create_datareader` (Ex2_multi_topic/VehicleSystemsSubscriber.cpp:140-163)
  are not checked by the code, which stores the handles and sets the flag true even when
  they are null. The model's reader records only the DDS topic and type names, so a null
  reader or topic is not represented.
- History.HistorySubscriber.SetupKeepLastReader and History.HistorySubscriber.SetupKeepAllReader:
  `delete_datareader` is taken to succeed; only `create_datareader` has an outcome
  parameter.
- Strings are sequences of characters; the programs' strings are bytes, and no encoding
  is modelled.
- Ownership.SteeringListener.Receive: `received_count_` is a C++ int and its overflow
  after 2^31 acceptances is not modelled; the count is unbounded.
- DiscoveryAnnounce.ServiceDiscoveryPublisher.Publish: the function-static `int count`
  is a field counting without bound. Its signed overflow is not modelled, and sharing it
  between several publishers in one process is not modelled (each program makes one).
- Discovery.PruneStale: timestamps and `now` are unbounded integers; a 64-bit overflow of
  `now_ns - timestamp` is not modelled.
- Reliability.ReliabilityListener.OnDataAvailable: requires fewer than 2^32 - 1 distinct
  numbers received overall. With every 32-bit number received, the code's advance loop
  never stops, so that case is excluded rather than modelled.
- Reliability.ReliabilityListener.Receive: the gap scan is the corrected ScanGaps, not
  the 32-bit loop as written (see Findings).
- Reliability.AdvanceMark: requires fewer than 2^32 keys, for the same reason as above.
- History.HistoryListener.Receive: the invariant ties `total_samples_` to the history
  length mod 2^32 only; `history_.size() == total_samples_` holds only until the counter
  wraps.
- Ownership.SteeringSubscriber.ToggleController: requires an id from 1 to 3, since the
  only caller passes `cmd - '0'` for `cmd` in '1'..'3'. The default-inserting
  `operator[]` for other ids is not modelled.
- VehicleSystems.VehicleSystemsSubscriber.Init: requires no reader to exist yet, as after
  construction. With an existing reader, `init` would reset its status flag to false and
  the subscribe would return early, breaking "flag true iff reader".
- Discovery.ServiceDiscoverySubscriber.HandleCommand: requires the listener to exist,
  since `run` is only entered after `init` has created it.
- PausePublisher.QueueInPublishOrder: the increasing-number form of the order holds only
  until `sequence_number_` wraps. The call-order form, in `Consistent`, holds always.
- PausePublisher.ReliableInPublishOrder: the same restriction applies.
- Ownership.AcceptedCount: the exact per-command rule is stated by
  Ownership.SteeringListener.Receive; the fold itself only bounds the count.

## Findings

| source | as written | input that shows it | evidently intended | confidence | as-written member | corrected member |
|---|---|---|---|---|---|---|
| Ex3_reliability/ReliabilitySubscriber.cpp:58 | the gap scan counts with a uint32_t and loops while the counter is at most the greatest received number | any received sample numbered 4294967295 (0xFFFFFFFF): the counter wraps to 0 and the guard never fails, so `on_data_available` hangs | scan each number from the least to the greatest received once, then stop | not executed | Reliability.ScanNeverFinishesAtMax | Reliability.ScanGaps |
