# Verification of the firmware-management daemons

This project models the stateful parts of the repository in Dafny and proves what they
promise over all inputs and all runs. The environment (D-Bus, MCTP, I2C, GPIO, timers, the
file system) appears as events and parameters: whatever it answers, the theorems hold.

Each component has a functional specification (a state, a step function per handler, an
invariant, lemmas over whole runs). Where the source updates objects in place or loops, a
class or a method follows its branches and is proved equal to the specification. Run
`dafny verify dfyconfig.toml` to check everything.

| files | what they model |
|---|---|
| `Text`, `HexCodec`, `Decimal`, `Bytes`, `Outcomes` | strings, Base16 (section 8 of RFC 4648), C++ integer parsing, byte strings as numbers |
| `ConfigParser`, `ConfigNames`, `ConfigReading`, `ConfigPrinter`, `ConfigSample` | the NVSwitch configuration parser, the spelling of its lines, a declarative reading that it refines, a printer that it inverts, and the documented layout |
| `BlobDelivery`, `BlobAccounting`, `ConfigManager` | the asynchronous delivery chain of one configuration, what each of its callbacks counts for, and the manager that owns the chains |
| `BootStatus`, `ApBootCheck`, `ErotRecovery`, `LinePolling`, `ErotMeaning`, `GpioResource` | the ERoT resource: boot-status bits, the retrying AP check, the recovery monitor, line polling, what each event comes to, and the object with its callbacks |
| `EndpointCache`, `PowerSettle` | the endpoint path cache (register, then read, then drain) and the deferred refresh after power-on |
| `TlvCodec`, `TokenPackage`, `TokenInstall` | the TLV container, the walks over a token package, endpoint choice and installation verdict |
| `FlashromSpi`, `SpiOutcomes`, `SpiPorts`, `SpiSystem`, `BiosErotSpi` | long-running flash and NVRAM operations: outcomes, bounded histories, dump files, exclusive ports, progress |
| `EnvQuoting`, `ImageVerifier` | quoting for environment files, and the acceptance of a signed image |

Results worth knowing, because the code does not do what one may expect:

- The sample in nvswitch-config/README.md:90-111 indents its list items. The parser passes over indented lines outside `metadata`, so it finds no blobs, and every file in that layout is rejected unless it has no blobs at all (`ConfigSample.SampleIsRejected`, and `ConfigReading.AnnouncedBlobsAreRejected` for any indentation).
- A cancelled poll timer leaves its device marked as busy for good (`ConfigManager.LostIsForGood`).
- A configuration with an empty blob does not survive printing and parsing: a dash with no text is not a list item (`ConfigPrinter.ParseOfPrint` gives the exact condition).
- The removal of any interface of an endpoint's object clears the cached path although the endpoint stays (`EndpointCache.OtherRemovalForgetsEndpoint`; `EndpointCache.DrainedCache` gives the exact condition).
- A power-on whose timer cannot be started leaves resources settling with nothing to wake them, exactly when some resource is tied to the chassis (`PowerSettle.NextKeeps`).
- A read start that evicts a dump and then finds no chip leaves a progress object with a closed descriptor, exactly when all three retained objects offer a dump (`FlashromSpi.AgreementExactly`; `FlashromSpi.SpoilingRun` is such a run).
- A second end of one SPI operation frees the port even while another operation is live on it, of the same object or of another, and does harm exactly then (`SpiPorts.EndKeepsExactly`, `SpiPorts.SecondEndFreesPort`).
- Endpoint discovery throws on names that the priority tables do not know, exactly when an endpoint on an unknown medium shares its UUID, or one ties on the fastest medium so far and a binding of the two is unknown (`TokenInstall.DiscoveryThrowsExactly`).

## Model

| member | source | states |
|---|---|---|
| `Text.TrimOf` | nvswitch-config/nvswitch_config_manager.cpp:672-681 | trimming removes exactly the white space around a text that starts and ends with none |
| `Text.TrimSplits` | nvswitch-config/nvswitch_config_manager.cpp:672-681 | every text is white space, its trimmed form, and white space again |
| `Text.TrimInPlace` | nvswitch-config/nvswitch_config_manager.cpp:672-681 | the in-place trim computes that form |
| `Text.GetLine` | nvswitch-config/nvswitch_config_manager.cpp:782 | one line is cut from the front of the rest and the lines behind it are kept |
| `Text.LinesOfUnlines` | nvswitch-config/nvswitch_config_manager.cpp:782 | reading back lines that were written one per line gives the same lines |
| `Text.LinesOfUnended` | nvswitch-config/nvswitch_config_manager.cpp:782 | a last line counts without its newline, unless it is empty |
| `HexCodec.HexStringToBytes` | nvswitch-config/nvswitch_config_manager.cpp:683-721 | succeeds exactly on an even number of hexadecimal digits, returns the bytes they denote, and reports the first bad pair |
| `HexCodec.HexDump` | nvswitch-config/nvswitch_config_manager.cpp:466-474 | the dump in the log is the lower-case Base16 of the data |
| `HexCodec.DecodeEncode` | nvswitch-config/nvswitch_config_manager.cpp:683-721 | decoding inverts the dump on all byte strings |
| `HexCodec.EncodeDecode` | nvswitch-config/nvswitch_config_manager.cpp:683-721 | dumping what was decoded forgets only the case of the digits |
| `HexCodec.SameBytesUpToCase` | nvswitch-config/nvswitch_config_manager.cpp:683-721 | two texts decode to the same bytes exactly when they differ in case only |
| `HexCodec.DigitsAre` | nvswitch-config/nvswitch_config_manager.cpp:683-721 | the value of every digit in both cases, the high digit first |
| `Decimal.ParseInt` | nvswitch-config/nvswitch_config_manager.cpp:876-883 | accepts exactly a decimal number that fits an `int` and returns it |
| `Decimal.IntOfPrint` | nvswitch-config/nvswitch_config_manager.cpp:919-925 | a printed number is read back, exactly when it fits an `int` |
| `Decimal.IntOfNegated` | nvswitch-config/nvswitch_config_manager.cpp:919-925 | a negated number is read back exactly up to 2^31 |
| `Decimal.DigitsAre` | nvswitch-config/nvswitch_config_manager.cpp:876-883 | ten digits, the most significant first, and a minus is the only sign |
| `Decimal.CastWraps` | nvswitch-config/nvswitch_config_manager.cpp:963-1000 | the cast of a length to `int` keeps it modulo 2^32 |
| `ConfigParser.ListItemHasText` | nvswitch-config/nvswitch_config_manager.cpp:817-819 | a trimmed line that begins with a dash and a space has text behind it, so the throw for an empty entry is never reached |
| `ConfigParser.ScanLine` | nvswitch-config/nvswitch_config_manager.cpp:784-946 | one raw line has the effect that its class in the grammar has |
| `ConfigParser.ScanRootLine` | nvswitch-config/nvswitch_config_manager.cpp:801-860 | root keys and root list items, branch by branch, are the step of the grammar |
| `ConfigParser.ScanMetadataLine` | nvswitch-config/nvswitch_config_manager.cpp:861-946 | keys and list items under `metadata`, branch by branch, are the step of the grammar |
| `ConfigParser.ValidateSizes` | nvswitch-config/nvswitch_config_manager.cpp:981-1000 | an empty size list asks for nothing; any other must match the blobs' lengths one by one |
| `ConfigParser.ValidateMetadata` | nvswitch-config/nvswitch_config_manager.cpp:958-1005 | missing counts, wrong counts and wrong sizes are rejected in the source's order |
| `ConfigParser.FinalErrors` | nvswitch-config/nvswitch_config_manager.cpp:958-1005 | which final error is reported: a missing count before a wrong one, that before wrong sizes, and the first list in file order |
| `ConfigParser.LineErrors` | nvswitch-config/nvswitch_config_manager.cpp:801-926 | which lines are in error, and how |
| `ConfigParser.ParseConfigFile` | nvswitch-config/nvswitch_config_manager.cpp:747-1006 | the line loop computes the grammar's run over all lines and the final checks |
| `ConfigNames.RootNames` | nvswitch-config/nvswitch_config_manager.cpp:839-856 | whatever stands behind the colon, exactly the two spellings of a list name open that list, exactly `metadata` opens the metadata, and no other name opens anything |
| `ConfigNames.SubNames` | nvswitch-config/nvswitch_config_manager.cpp:902-946 | under it, after a space or a tab, exactly the two spellings of a count or size name announce that count with its trimmed value, or that list |
| `ConfigNames.CommentsAreIgnored` | nvswitch-config/nvswitch_config_manager.cpp:791-795 | blank lines and comments say nothing at any indentation |
| `ConfigNames.ReturnIsIgnored` | nvswitch-config/nvswitch_config_manager.cpp:786-787 | a carriage return at the end of a line changes nothing |
| `ConfigNames.SpacesAre` | nvswitch-config/nvswitch_config_manager.cpp:672-681 | white space is the six characters of the C locale |
| `ConfigReading.PrefixMeaning` | nvswitch-config/nvswitch_config_manager.cpp:775-947 | after any prefix of the lines, the parser's section, sub-key, counts and lists are those of the declarative reading, and an error occurs exactly when a line of the prefix is unreadable |
| `ConfigReading.FinalMeaning` | nvswitch-config/nvswitch_config_manager.cpp:958-1005 | the final checks accept exactly when the last counts match and non-empty size lists match pointwise |
| `ConfigReading.ParseIsReading` | nvswitch-config/nvswitch_config_manager.cpp:726-1006 | for every text the parser accepts exactly when the declarative reading does, and returns the blobs of the reading in file order |
| `ConfigReading.IndentedItemsAreNotBlobs` | nvswitch-config/nvswitch_config_manager.cpp:863-864 | a file whose list items are all indented is accepted only with three empty lists |
| `ConfigReading.AnnouncedBlobsAreRejected` | nvswitch-config/nvswitch_config_manager.cpp:863-979 | and rejected as soon as its last count for some list is not zero |
| `ConfigPrinter.ClassifyBlobLine` | nvswitch-config/nvswitch_config_manager.cpp:797-837 | the printed line of a blob is read as that blob's item, or ignored when the blob is empty |
| `ConfigPrinter.RunConfigLines` | nvswitch-config/nvswitch_config_manager.cpp:782-947 | the parser's state after all printed lines |
| `ConfigPrinter.ParseOfPrint` | nvswitch-config/nvswitch_config_manager.cpp:726-1006 | parsing a printed configuration gives the same three lists exactly when no blob is empty and every count and length fits an `int`; otherwise it is rejected |
| `ConfigSample.RunSampleLines` | nvswitch-config/nvswitch_config_manager.cpp:782-947 | the parser's state after a file in the documented layout: the counts and sizes, and no blobs |
| `ConfigSample.SampleIsRejected` | nvswitch-config/README.md:90-111 | for every configuration, its file in the documented layout is accepted exactly when there is no blob at all |
| `BlobDelivery.FlattenOrder` | nvswitch-config/nvswitch_config_manager.cpp:413-422 | the flat list holds ports_down, then configure, then ports_up, each in order with its index |
| `BlobDelivery.BuildBlobs` | nvswitch-config/nvswitch_config_manager.cpp:413-422 | the three loops build that list |
| `BlobDelivery.DeliverKeeps` | nvswitch-config/nvswitch_config_manager.cpp:452-629 | every callback keeps: attempts are a prefix, counters add up to the blobs decided, one blob is out, at most 151 reads a blob |
| `BlobDelivery.DeliveryInOrder` | nvswitch-config/nvswitch_config_manager.cpp:413-629 | over every run of replies, errors and timeouts: each blob attempted once and in order, successes are the success replies, and at the end everything was attempted, or nothing when the service was not found |
| `BlobDelivery.DeliverSpends` | nvswitch-config/nvswitch_config_manager.cpp:452-629 | every callback brings the end of the chain closer |
| `BlobDelivery.RunsEnd` | nvswitch-config/nvswitch_config_manager.cpp:452-629 | no run delivers more callbacks than 1 + 302 for each blob, and until the chain has ended there is one it waits for |
| `BlobAccounting.DeliverCounts` | nvswitch-config/nvswitch_config_manager.cpp:452-616 | every callback, counted by its answer alone: which reads, failures and successes it adds, when it turns to the next blob, and what is waited for |
| `BlobAccounting.DeliveryAccounts` | nvswitch-config/nvswitch_config_manager.cpp:452-616 | over every run: as many status reads as accepted sends and fired timers; a blob is read exactly when its send was accepted; failures are the rejected sends, unreadable statuses, failure replies, blobs in progress on their 151st read and those without a memory file; successes are the success replies |
| `BlobAccounting.AcceptedSendIsRead` | nvswitch-config/nvswitch_config_manager.cpp:503-522 | one blob that is found, sent and accepted is being read and has not failed |
| `BlobDelivery.BlobSendContext.SendNextBlob` | nvswitch-config/nvswitch_config_manager.cpp:452-530 | sends the current blob, counting those whose memory file cannot be made as failed, or finishes |
| `BlobDelivery.BlobSendContext.PollBlobStatus` | nvswitch-config/nvswitch_config_manager.cpp:532-545 | issues one status read |
| `BlobDelivery.BlobSendContext.OnStatusRead` | nvswitch-config/nvswitch_config_manager.cpp:545-616 | error, in progress, timed out, success and failure lead to the specified next state |
| `BlobDelivery.BlobSendContext.Handle` | nvswitch-config/nvswitch_config_manager.cpp:452-629 | each callback on the shared context is the specified step |
| `ConfigManager.NextKeeps` | nvswitch-config/nvswitch_config_manager.cpp:103-450 | every event keeps: marks and live chains correspond, no device has two chains, the stored file is one the parser accepts |
| `ConfigManager.SingleChain` | nvswitch-config/nvswitch_config_manager.cpp:333-629 | over every run in which no poll timer is cancelled, a device is marked exactly while one chain for it is live |
| `ConfigManager.LostOnlyByCancelling` | nvswitch-config/nvswitch_config_manager.cpp:578-587 | only a cancelled poll timer leaves a device marked with no chain |
| `ConfigManager.MarkIsCleared` | nvswitch-config/nvswitch_config_manager.cpp:364-629 | while a device stays marked, its chain waits for a callback and has been served fewer than its budget, so the mark is cleared after at most that many |
| `ConfigManager.SignalStartsChain` | nvswitch-config/nvswitch_config_manager.cpp:333-358 | a readable file starts one chain for an idle device; a signal for a busy or unknown one changes nothing |
| `ConfigManager.AddMeans` | nvswitch-config/nvswitch_config_manager.cpp:103-196 | a file is taken exactly when none is stored, it has 1 to 65536 bytes, parses and could be written; nothing else changes |
| `ConfigManager.RemoveMeans` | nvswitch-config/nvswitch_config_manager.cpp:198-224 | a removal that is carried out leaves no file and everything else; any other changes nothing |
| `ConfigManager.FileStays` | nvswitch-config/nvswitch_config_manager.cpp:103-224 | over every run a stored file stays until it is removed, and no file appears without a write |
| `ConfigManager.DevicesAreSubscribed` | nvswitch-config/nvswitch_config_manager.cpp:276-299 | over every run the devices are exactly those subscribed to |
| `ConfigManager.CancelLosesDevice` | nvswitch-config/nvswitch_config_manager.cpp:578-587 | a cancelled timer ends the chain and leaves its device marked |
| `ConfigManager.LostIsForGood` | nvswitch-config/nvswitch_config_manager.cpp:333-358 | from then on, over every run, that device stays marked and no chain ever serves it again |
| `ConfigManager.NVSwitchConfigManager.HandleAddConfigFile` | nvswitch-config/nvswitch_config_manager.cpp:103-196 | stores a file exactly when none is stored, it is not empty, not too large, parses, and the write succeeds |
| `ConfigManager.NVSwitchConfigManager.HandleRemoveConfigFile` | nvswitch-config/nvswitch_config_manager.cpp:198-224 | removes the stored file exactly when there is one and the file system removes it |
| `ConfigManager.NVSwitchConfigManager.SubscribeToDevice` | nvswitch-config/nvswitch_config_manager.cpp:276-299 | a device is added once, idle |
| `ConfigManager.NVSwitchConfigManager.OnConfigUpdateSignal` | nvswitch-config/nvswitch_config_manager.cpp:333-358 | the guard on the mark, then the start of a chain |
| `ConfigManager.NVSwitchConfigManager.ApplyConfigToDevice` | nvswitch-config/nvswitch_config_manager.cpp:364-450 | clears the mark when there is nothing to send, otherwise starts the chain of the stored configuration |
| `ConfigManager.NVSwitchConfigManager.Dispatch` | nvswitch-config/nvswitch_config_manager.cpp:452-629 | delivers one callback to one chain, leaves the others alone, and clears the mark when that chain finishes |
| `BootStatus.GetBitIsBit` | fw-status/boot_status_utils.hpp:33-48 | every bit of every status is that bit of the big-endian number it denotes, and clear beyond its length |
| `BootStatus.GetAPFatalErrorCode` | fw-status/boot_status_utils.hpp:50-68 | the loop's code is (number / 2^28) mod 16, and absent exactly below four bytes |
| `Bytes.BitsAreQuotients` | fw-status/boot_status_utils.hpp:33-48 | bits 0, 5 and 27 of a number as quotients |
| `ApBootCheck.StartKeeps` | fw-status/gpio_resource.cpp:778-810 | starting and stopping keep the check's invariant, the AP object and a query in flight; a start arms the timer of a fresh check exactly when there is an AP and a helper |
| `ApBootCheck.AnsweredKeeps` | fw-status/gpio_resource.cpp:930-1038 | every answer arms the timer again or ends the check with a verdict |
| `ApBootCheck.NextKeeps` | fw-status/gpio_resource.cpp:812-1038 | an active check always has its timer armed or a query in flight, an inactive one neither timer nor count |
| `ApBootCheck.NextSpends` | fw-status/gpio_resource.cpp:812-1038 | every tick and reply brings the verdict closer |
| `ApBootCheck.VerdictReached` | fw-status/gpio_resource.cpp:778-1038 | a check that is not restarted takes at most 2 max + 3 ticks and replies and max + 1 unavailable results, and when nothing more can happen it has a verdict; unresolved only after max + 1 |
| `ApBootCheck.FatalCodeBits` | fw-status/boot_status_utils.hpp:50-68 | the fatal code is non-zero exactly when one of bits 28 to 31 is set |
| `ApBootCheck.VerdictOfAnswer` | fw-status/gpio_resource.cpp:936-1004 | failed exactly when at least four status bytes arrive with one of bits 27 to 31 set; booted exactly when none is and bit 5 is |
| `ApBootCheck.VerdictOfReply` | fw-status/gpio_resource.cpp:812-1004 | the same of the reply to a query in flight and of a query that ends without suspending |
| `ApBootCheck.PublishedByAnswer` | fw-status/gpio_resource.cpp:951-1038 | the AP object shows the verdict an answer leads to, and is left alone while there is none |
| `ErotRecovery.StartEstablishes` | fw-status/gpio_resource.cpp:216-263 | construction establishes all invariants in both monitor modes |
| `ErotRecovery.UpdateMeaning` | fw-status/gpio_resource.cpp:656-771 | what each health update does to recovery, its counters, the check and the object, by power, probe and reason |
| `ErotRecovery.UpdateKeeps` | fw-status/gpio_resource.cpp:656-771 | a health update keeps the accounting and the check's invariant and restarts the MCTP target at most once |
| `ErotRecovery.CheckExitByVdmKeeps` | fw-status/gpio_resource.cpp:1279-1347 | so does the exit check by VDM, with its fallback to the endpoint check |
| `ErotRecovery.MonitorKeeps` | fw-status/gpio_resource.cpp:1144-1277 | so do the monitor's tick and an added endpoint |
| `ErotRecovery.RegisterKeeps` | fw-status/gpio_resource.cpp:375-429 | registration ends either listening on a held line or with no line and no event |
| `ErotRecovery.PollKeeps` | fw-status/gpio_resource.cpp:566-636 | polling keeps all invariants, lost lines included |
| `ErotRecovery.LineEventKeeps` | fw-status/gpio_resource.cpp:302-485 | edges, line losses, registration retries and refreshes keep all invariants |
| `ErotRecovery.QueryEventKeeps` | fw-status/gpio_resource.cpp:812-949 | query timers, replies and monitor events keep all invariants, in any interleaving |
| `ErotRecovery.RunKeeps` | fw-status/gpio_resource.cpp:216-1347 | the invariants hold over every run, and no event restarts the MCTP target twice |
| `ErotRecovery.RecoveryAccounting` | fw-status/gpio_resource.cpp:656-771 | from construction on: recovery errors committed minus exits is one in recovery and zero outside, the monitor runs exactly in recovery in polling mode and never in interrupt mode, an active AP check is never stranded, and interrupt mode listens or retries |
| `ErotMeaning.ReasonByLevel` | fw-status/gpio_resource.cpp:638-642 | assertion is a non-zero level of an active-high line or a zero level of an active-low one |
| `ErotMeaning.PollMeaning` | fw-status/gpio_resource.cpp:566-636 | a poll issues the update of its level exactly when the sample is the first or differs from the last |
| `ErotMeaning.RegisterMeaning` | fw-status/gpio_resource.cpp:375-429 | a registration issues an assertion exactly at the active level, and no other update |
| `ErotMeaning.ReevaluateMeaning` | fw-status/gpio_resource.cpp:1209-1243 | a re-evaluation goes by the held line's level, otherwise the last sample, and by assertion without either |
| `ErotMeaning.EdgeMeaning` | fw-status/gpio_resource.cpp:302-337 | a rising edge gives the update of a first sample 1, a falling edge that of 0 |
| `ErotMeaning.RefreshMeaning` | fw-status/gpio_resource.hpp:324-334 | a refresh polls in polling mode and otherwise leaves line and check alone |
| `ErotMeaning.StartMeaning` | fw-status/gpio_resource.cpp:216-263 | which line construction leaves held or listened to |
| `ErotMeaning.SeenIsEvaluated` | fw-status/gpio_resource.cpp:1144-1347 | whatever monitor event shows the ERoT, it is evaluated again by the level of its line |
| `ErotMeaning.RecoveryEndsBy` | fw-status/gpio_resource.cpp:1144-1347 | in recovery a monitor event ends it exactly when it shows the ERoT, the chassis is on and the probe says so |
| `ErotMeaning.MonitorIsQuietOutside` | fw-status/gpio_resource.cpp:1144-1347 | outside recovery monitor events do nothing |
| `ErotMeaning.MonitorTriggers` | fw-status/gpio_resource.cpp:1245-1347 | discovery is triggered exactly once for each event that does not show the ERoT, except while a query is out and for other endpoints |
| `ErotMeaning.ApReplyDecides` | fw-status/gpio_resource.cpp:910-1004 | the reply to the query in flight decides about the AP by bits 27 to 31 and bit 5 |
| `ErotMeaning.ApTickQueries` | fw-status/gpio_resource.cpp:812-843 | a tick sends a query unless one is in flight |
| `LinePolling.PollingReportsChanges` | fw-status/gpio_resource.cpp:566-636 | over every run in polling mode, with queries, replies, monitor and power events between the polls, the updates that polls issue are the levels of the readings that differ from the one before |
| `LinePolling.OthersLeaveLine` | fw-status/gpio_resource.cpp:216-1347 | in polling mode nothing but a poll touches the line and its last sample |
| `LinePolling.LossRestarts` | fw-status/gpio_resource.cpp:339-373 | a lost line starts the compression over |
| `LinePolling.ChangesAreDedup` | fw-status/gpio_resource.cpp:566-642 | between losses the updates are the levels of the samples with adjacent repeats removed |
| `LinePolling.BitReportsAlternate` | fw-status/gpio_resource.cpp:566-642 | for samples 0 and 1 the updates alternate, and the last one is an assertion exactly when the last sample is the active level |
| `GpioResource.GPIOResource.constructor` | fw-status/gpio_resource.cpp:216-263 | the new object is in the specified start state |
| `GpioResource.GPIOResource.StartAPBootStatusCheck` | fw-status/gpio_resource.cpp:778-810 | the fields after a start are those of the specified start, a query in flight included |
| `GpioResource.GPIOResource.ScheduleAPBootStatusQuery` | fw-status/gpio_resource.cpp:845-883 | arms the timer of an active check and touches nothing else |
| `GpioResource.GPIOResource.StopAPBootStatusCheck` | fw-status/gpio_resource.cpp:885-908 | clears activity, count and timer and touches nothing else |
| `GpioResource.GPIOResource.RunAPBootStatusQuery` | fw-status/gpio_resource.cpp:812-843 | the timer's callback is the specified step, whether the query suspends or not |
| `GpioResource.GPIOResource.FinishAPBootStatusQuery` | fw-status/gpio_resource.cpp:910-949 | the coroutine from its reply on is the specified step |
| `GpioResource.GPIOResource.HandleAPBootStatus` | fw-status/gpio_resource.cpp:951-1004 | the decision on a status is the specified one |
| `GpioResource.GPIOResource.MarkAPUnhealthy` | fw-status/gpio_resource.cpp:1006-1012 | publishes the failure and ends the check |
| `GpioResource.GPIOResource.HandleAPBootStatusUnavailable` | fw-status/gpio_resource.cpp:1014-1038 | retries within the configured maximum, then publishes degraded and ends the check |
| `GpioResource.GPIOResource.StartERoTRecoveryMonitor` | fw-status/gpio_resource.cpp:1060-1114 | activates monitor and timer in polling mode only |
| `GpioResource.GPIOResource.EnterRecoveryMode` | fw-status/gpio_resource.cpp:686-710 | commits the error on the transition only |
| `GpioResource.GPIOResource.UpdateOutOfRecovery` | fw-status/gpio_resource.cpp:712-770 | leaves recovery, publishes, and on an assertion restarts the target unless just done and starts the AP check |
| `GpioResource.GPIOResource.UpdateERoTHealth` | fw-status/gpio_resource.cpp:656-771 | the whole health update is the specified one |
| `GpioResource.GPIOResource.ReevaluateERoTHealthAfterRecovery` | fw-status/gpio_resource.cpp:1209-1243 | the reason follows the line's level, the last sample, or an assumed assertion |
| `GpioResource.GPIOResource.RunERoTRecoveryMonitor` | fw-status/gpio_resource.cpp:1245-1277 | the monitor's tick is the specified step |
| `GpioResource.GPIOResource.RunERoTExitVdmCheck` | fw-status/gpio_resource.cpp:1279-1313 | one query at a time, and a lasting fallback without the helper |
| `GpioResource.GPIOResource.FinishERoTExitQuery` | fw-status/gpio_resource.cpp:1315-1347 | no answer triggers discovery, an answer re-evaluates |
| `GpioResource.GPIOResource.OnERoTEndpointAdded` | fw-status/gpio_resource.cpp:1144-1189 | only this ERoT's endpoint counts, and only while the monitor is active |
| `GpioResource.GPIOResource.RegisterGPIOEvent` | fw-status/gpio_resource.cpp:375-429 | true exactly when every step succeeds; otherwise everything is cleared |
| `GpioResource.GPIOResource.RetryGPIOEventRegistration` | fw-status/gpio_resource.cpp:471-485 | the retry timer stops exactly when the event is registered |
| `GpioResource.GPIOResource.WaitForGPIOEvent` | fw-status/gpio_resource.cpp:302-337 | an edge means assertion by polarity; a lost line is cleared and retried |
| `GpioResource.GPIOResource.PollGpio` | fw-status/gpio_resource.cpp:566-636 | one poll is the specified step |
| `GpioResource.GPIOResource.Dispatch` | fw-status/gpio_resource.cpp:216-1347 | one turn of the event loop is the specified step, and every invariant survives it |
| `EndpointCache.GetMCTPObjectPath` | fw-status/mctp_discovery_resource.cpp:22-46 | finds a live endpoint with the EID exactly when the bus has one, and throws exactly when an endpoint without an EID comes before it |
| `EndpointCache.DrainedCache` | fw-status/mctp_discovery_resource.cpp:48-126 | for every order of events around the read, once the signals are drained the cache names nothing but a live endpoint, and names the live one exactly when the last signal on its path added it, or there was none and the read succeeded |
| `EndpointCache.RegisterThenSnapshot` | fw-status/mctp_discovery_resource.cpp:48-126 | with a read that succeeds and no removal of another interface, the drained cache agrees with the bus |
| `EndpointCache.SnapshotFirstLosesEndpoint` | fw-status/mctp_discovery_resource.cpp:50-54 | the opposite order misses an endpoint |
| `EndpointCache.OtherRemovalForgetsEndpoint` | fw-status/mctp_discovery_resource.cpp:95-108 | the removal callback does not look at which interface was removed |
| `EndpointCache.MCTPDiscoveryResource.OnSignal` | fw-status/mctp_discovery_resource.cpp:57-117 | the callbacks set and clear the path as specified, and enumeration is remembered |
| `EndpointCache.MCTPDiscoveryResource.MonitorMCTPEndpoint` | fw-status/mctp_discovery_resource.cpp:48-126 | both matches are there; it succeeds exactly when no endpoint without an EID comes before the first match; then the path is what the bus shows, and enumeration is remembered exactly when a path was found |
| `EndpointCache.MCTPDiscoveryResource.DeliverSignals` | fw-status/mctp_discovery_resource.cpp:57-117 | a queue of signals leaves the path of the specified drain |
| `EndpointCache.MCTPDiscoveryResource.WatchEndpoint` | fw-status/mctp_discovery_resource.cpp:48-126 | register, read and drain on one object: its path is the drained cache that starts with what the read found |
| `PowerSettle.NextKeeps` | fw-status/fw-status.cpp:1564-1638 | every event keeps that a settling resource has the timer armed and is not cached as Off, unless a timer start fails, and then exactly when no resource is tied to the chassis |
| `PowerSettle.RunKeeps` | fw-status/fw-status.cpp:1564-1716 | that holds over every run in which timer starts succeed |
| `PowerSettle.PowerMeans` | fw-status/fw-status.cpp:1564-1638 | Off refreshes a tied resource at once, any other state makes it settle, an untied one ignores both |
| `PowerSettle.AddMeaning` | fw-status/fw-status.cpp:702-717 | a new resource is refreshed once, settled, and caches the chassis state only when tied to the chassis |
| `PowerSettle.SettleEndsWithRefresh` | fw-status/fw-status.cpp:1564-1716 | over every run, a resource that was settling and no longer is was refreshed in between |
| `PowerSettle.ExpirySettlesAll` | fw-status/fw-status.cpp:1660-1682 | the expiry refreshes exactly the resources tied to the chassis, once each, and leaves none settling |
| `PowerSettle.ReconcileIdempotent` | fw-status/fw-status.cpp:497-556 | reconciling twice is reconciling once |
| `PowerSettle.ReconcileLikeSignal` | fw-status/fw-status.cpp:497-556 | leaves the caches of the missed signal exactly when the state is not empty, or no cache differs from it |
| `PowerSettle.ReconcileTouchesStaleOnly` | fw-status/fw-status.cpp:508-536 | a stale resource gets the signal's whole effect, any other is left alone |
| `PowerSettle.BaseResource.SetConnectedToChassis` | fw-status/base_resource.hpp:259-266 | cutting the tie forgets the cached state |
| `PowerSettle.Watcher.OnPowerStateChanged` | fw-status/fw-status.cpp:1564-1638 | the loop over the resources and the timer are the specified step |
| `PowerSettle.Watcher.ReconcileChassisPowerState` | fw-status/fw-status.cpp:497-556 | the loop, its early return and the timer are the specified step |
| `PowerSettle.Watcher.RefreshChassisPoweredResourcesHealth` | fw-status/fw-status.cpp:1660-1682 | the expiry's loop is the specified step |
| `PowerSettle.Watcher.SchedulePowerStateHealthRefresh` | fw-status/fw-status.cpp:1697-1716 | a start replaces a timer in flight |
| `PowerSettle.Watcher.AddResource` | fw-status/fw-status.cpp:702-717 | a new resource takes the state read at publication and is refreshed once |
| `PowerSettle.Watcher.ApplyChassisConnectionAndRefresh` | fw-status/fw-status.cpp:273-300 | the tie, the initial state and the first refresh, by property |
| `TlvCodec.DecodeEncode` | debug_token/tlv/tlv_decoder.cpp:232-283 | decoding inverts encoding on every valid structure |
| `TlvCodec.EncodeDecode` | debug_token/tlv/tlv_decoder.cpp:232-283 | what decodes is valid and encodes to the same bytes |
| `TlvCodec.DecodeIsInverse` | debug_token/tlv/tlv_decoder.cpp:44-283 | the decoder accepts exactly the encodings of valid structures: no type twice, at least one item, sizes that add up |
| `TlvCodec.HeaderIs` | debug_token/tlv/tlv_decoder.cpp:232-256 | the 32 bytes of the header, one by one |
| `TlvCodec.ItemIs` | debug_token/tlv/tlv_decoder.cpp:257-283 | an item is its type, its size and its value |
| `TlvCodec.DecodeErrors` | debug_token/tlv/tlv_decoder.cpp:44-283 | which inputs meet which error before the items |
| `TlvCodec.DecodeStructure` | debug_token/tlv/tlv_decoder.cpp:232-283 | the decoder's loop builds the map of the specified items, or throws the specified error |
| `TokenPackage.WalkTiles` | debug_token/token_utility.hpp:341-417 | for any bytes the records walked are genuine and contiguous, the tokens are those that carry a serial, in order; nothing went wrong exactly when all declared records were walked and none was broken |
| `TokenPackage.TilesJoin` | debug_token/token_utility.hpp:341-417 | the records put together again are the bytes walked over |
| `TokenPackage.WellFormedWalk` | debug_token/token_utility.hpp:341-417 | a package of well-formed records, whatever surrounds them, gives exactly their tokens |
| `TokenPackage.TlvRecordReads` | debug_token/token_utility.hpp:285-329 | every encoding of a valid TLV structure is read back whole wherever it lies |
| `TokenPackage.LegacyRecordReads` | debug_token/token_utility.hpp:114-168 | so is every older token that holds its serial number |
| `TokenPackage.TlvPackageExact` | debug_token/token_utility.hpp:341-417 | a TLV package of valid structures is walked without failure, and the tokens are the serial and bytes of each that carries a serial |
| `TokenPackage.GoodRecordIsStructure` | debug_token/token_utility.hpp:285-329 | a TLV record that fits is good exactly when it is the encoding of a valid structure |
| `TokenPackage.PieceStops` | debug_token/token_utility.hpp:114-329 | where a walk cannot go on, by sizes, in both formats |
| `TokenPackage.LegacyTokenReads` | debug_token/token_utility.hpp:114-168 | the layout of an older token, with a serial number of 16 bytes for "MCDT" and 8 otherwise |
| `TokenPackage.SerialIsItemThree` | debug_token/token_utility.hpp:285-329 | the serial number is the value of the item of type 3, and there is none without it |
| `TokenPackage.SerialsAreUpperCase` | debug_token/token_utility.hpp:238-249 | "0x" and two upper-case digits for each byte |
| `TokenPackage.SerialTextDecodes` | debug_token/token_utility.hpp:238-249 | the text after "0x" decodes to the serial number's bytes, so keys are as distinct as serial numbers |
| `TokenPackage.FormatSerialNumber` | debug_token/token_utility.hpp:238-249 | the loop builds that text |
| `TokenPackage.ParseSingleTlvRecord` | debug_token/token_utility.hpp:285-329 | one record comes to no room, an exception with its size known, or a token or none |
| `TokenPackage.ParseTlvTokens` | debug_token/token_utility.hpp:341-417 | adds the walk's tokens; status 0 exactly when nothing went wrong and a token is there |
| `TokenPackage.GetNextDebugToken` | debug_token/token_utility.hpp:114-168 | an older token is read exactly when header, serial number and declared size fit the file |
| `TokenPackage.UpdateTokenMap` | debug_token/update_debug_token.cpp:471-512 | the older format's loop adds the walk's tokens; status 0 exactly when all records were read |
| `TokenInstall.SlowerIsRank` | debug_token/update_debug_token.hpp:194-203 | the comparison is by medium first and binding second |
| `TokenInstall.SlowerIsStrictWeakOrder` | debug_token/update_debug_token.hpp:168-203 | on known media and bindings it is a strict weak order |
| `TokenInstall.ChoosesFirstFastest` | debug_token/update_debug_token.cpp:310-366 | when endpoints that share a UUID have known media and bindings nothing throws, and each UUID gets its first endpoint of least priority |
| `TokenInstall.ChoosesAnEndpoint` | debug_token/update_debug_token.cpp:310-366 | whatever the names, what is chosen is an eligible endpoint of the UUID |
| `TokenInstall.UsableUuids` | debug_token/update_debug_token.cpp:321-349 | a UUID gets an endpoint exactly when some object has both interfaces and that UUID, names its medium or binding, is enabled and supports the messages |
| `TokenInstall.FastestFirst` | debug_token/update_debug_token.hpp:168-184 | the six names in the order PCIe, USB, SPI, KCS, Serial, SMBus, and no others |
| `TokenInstall.FasterWins` | debug_token/update_debug_token.cpp:351-363 | of two endpoints the faster medium is chosen, then the faster binding, then the first |
| `TokenInstall.OkIsDecided` | debug_token/update_debug_token.cpp:310-366 | a search that has not thrown holds, for each UUID, an endpoint on a fastest medium, and media that tie have known bindings |
| `TokenInstall.DiscoveryThrowsExactly` | debug_token/update_debug_token.hpp:194-203 | discovery throws exactly when an endpoint on an unknown medium shares its UUID, or one ties with another on the fastest medium of its UUID so far and one of their bindings is unknown |
| `TokenInstall.DiscoverMCTPDevices` | debug_token/update_debug_token.cpp:310-366 | the discovery loop computes that choice |
| `TokenInstall.MatchingIsFilter` | debug_token/nsm_debug_token.cpp:741-761 | a device is sent each token exactly as often as the package has it with the device's ID as its serial number |
| `TokenInstall.MatchingKeepsOrder` | debug_token/nsm_debug_token.cpp:741-761 | and in file order |
| `TokenInstall.NothingForEmptyId` | debug_token/nsm_debug_token.cpp:741-761 | nothing is sent to a device with an empty ID |
| `TokenInstall.NothingForOthers` | debug_token/nsm_debug_token.cpp:754-761 | nothing is sent to a device whose ID no token carries |
| `TokenInstall.AttemptsDecide` | debug_token/nsm_debug_token.cpp:733-818 | an unreadable ID fails; otherwise the attempts decide, the first always counting and an exception ending them |
| `TokenInstall.InstallOnEndpoint` | debug_token/nsm_debug_token.cpp:733-818 | an endpoint fails exactly when its device ID cannot be read or an attempt fails; an exception leaves the rest untried; what is sent is a prefix of the tokens whose serial is the device's ID |
| `TokenInstall.NsmTokenInstallV2` | debug_token/nsm_debug_token.cpp:712-833 | Failed exactly when something failed, otherwise NoMatch exactly when nothing was installed, otherwise Success; every token sent carries its device's ID; with all IDs readable and no token for any of them it is NoMatch and nothing is sent |
| `FlashromSpi.NextKeeps` | flashrom-wrapper/flashrom_wrapper.cpp:555-738 | every event keeps the named dumps the newest dump files and both queues at most three long, except the one start described |
| `FlashromSpi.ExitKeeps` | flashrom-wrapper/flashrom_wrapper.cpp:146-190 | a process's end keeps them in step, whether its dump can be opened or not |
| `FlashromSpi.RunAgrees` | flashrom-wrapper/flashrom_wrapper.cpp:163-186 | over every run from the first start on, with one end for each operation and no such start, every offered dump is its own open file and both queues hold at most three |
| `FlashromSpi.SpoilsAgreement` | flashrom-wrapper/flashrom_wrapper.cpp:578-612 | that start loses agreement from every state in step |
| `FlashromSpi.AgreementExactly` | flashrom-wrapper/flashrom_wrapper.cpp:578-612 | so after such a run the next event keeps agreement exactly when it is not that start |
| `FlashromSpi.SpoilingRun` | flashrom-wrapper/flashrom_wrapper.cpp:578-612 | the start happens: after three complete reads from the first start on, a read that finds no chip |
| `FlashromSpi.ProgressRises` | flashrom-wrapper/flashrom_wrapper.cpp:254-287 | progress rises in tens, never falls, ends at 100, and only the newest object is in progress |
| `FlashromSpi.RunProgress` | flashrom-wrapper/flashrom_wrapper.cpp:254-287 | over every run from the first start on, the newest object alone is in progress, shows the current progress in tens, and the timer is armed exactly until it shows 100 |
| `SpiOutcomes.ExitOutcome` | flashrom-wrapper/flashrom_wrapper.cpp:146-192 | an exit shows Completed exactly when the process ended well and a read's dump could be opened, otherwise Failed |
| `SpiOutcomes.AbortOutcome` | flashrom-wrapper/flashrom_wrapper.cpp:650-665 | an abort shows Failed |
| `SpiOutcomes.HistoryShowsOperations` | flashrom-wrapper/flashrom_wrapper.cpp:555-738 | over every run the retained objects are those of the last operations, and each shows how its own operation ended; only a completed read offers a descriptor |
| `SpiOutcomes.FailedErase` | flashrom-wrapper/flashrom_wrapper.cpp:188-192 | an erase whose process fails shows Failed |
| `SpiOutcomes.DumpsChangeBy` | flashrom-wrapper/flashrom_wrapper.cpp:780-822 | dumps are added by completed reads and dropped, the oldest first, by read starts alone |
| `SpiPorts.BeginKeeps` | flashrom-wrapper/flashrom_wrapper.cpp:99-127 | a start keeps each port with one live operation at most |
| `SpiPorts.EndKeepsExactly` | flashrom-wrapper/flashrom_wrapper.cpp:681-738 | an end keeps exclusive use exactly when its operation is live or none is live on its port, whichever object the other belongs to |
| `SpiPorts.RunKeepsExclusive` | flashrom-wrapper/flashrom_wrapper.cpp:99-133 | with one end for each operation, a port is marked exactly when one operation on it is live |
| `SpiPorts.SecondEndFreesPort` | flashrom-wrapper/flashrom_wrapper.cpp:650-665 | a late second end, after the same object or another has started again, lets two operations run on one port |
| `SpiPorts.PortTable.MarkUsbInUse` | flashrom-wrapper/flashrom_wrapper.cpp:112-121 | marks a free port and reports one in use, leaving other ports alone |
| `SpiPorts.PortTable.ReleaseUsb` | flashrom-wrapper/flashrom_wrapper.cpp:129-133 | frees the port and leaves other ports alone |
| `SpiPorts.SpiObject.StartSpiOperation` | flashrom-wrapper/flashrom_wrapper.cpp:555-679 | the start is the specified step with the specified failure reason, and marks the port exactly when it succeeds |
| `SpiPorts.SpiObject.FinishSpiOperation` | flashrom-wrapper/flashrom_wrapper.cpp:681-738 | the end is the specified step and frees the port |
| `SpiPorts.SpiObject.OnProcessExit` | flashrom-wrapper/flashrom_wrapper.cpp:146-190 | the wait handler is the specified step in every state, an operation that was ended before included |
| `SpiPorts.SpiObject.UpdateProgress` | flashrom-wrapper/flashrom_wrapper.cpp:254-287 | one progress tick, guarded by the port, is the specified step |
| `SpiPorts.SpiObject.CheckDumpFiles` | flashrom-wrapper/flashrom_wrapper.cpp:780-822 | the oldest dump is closed and dropped exactly when three are kept |
| `SpiSystem.LocalCanHappen` | flashrom-wrapper/flashrom_wrapper.cpp:555-567 | among the objects, a start while the object's own operation runs meets a port in use, and a tick meets its port in use |
| `SpiSystem.RunKeepsLinked` | flashrom-wrapper/flashrom_wrapper.cpp:99-738 | over every run of the objects together, a port is marked exactly when one object on it has an operation running, and every object's progress and descriptors are in order |
| `SpiSystem.RunKeepsDumps` | flashrom-wrapper/flashrom_wrapper.cpp:555-822 | and as long as no start spoils it, every dump that any object offers is its own open file |
| `BiosErotSpi.ShownRises` | bios-erot-spi/bios_erot_spi.cpp:506-537 | published progress never falls, stays at 90 or below until the end, and is 100 only there |
| `BiosErotSpi.Verdict` | bios-erot-spi/bios_erot_spi.cpp:501-537 | the answer to the last query decides |
| `BiosErotSpi.RepliesMean` | bios-erot-spi/bios_erot_spi.cpp:260-284 | a request is accepted by the responses 0, 1 and 0, 2, a query is complete by 0, 1 and in progress by 0, 3 |
| `BiosErotSpi.ThirtiethQueryIsLast` | bios-erot-spi/bios_erot_spi.cpp:506-537 | after twenty-nine answers "in progress" the thirtieth query is the last and decides |
| `BiosErotSpi.ClearProvider.StartOperation` | bios-erot-spi/bios_erot_spi.cpp:185-227 | refused while an operation is active; otherwise a new newest object, and eviction never drops one in progress |
| `BiosErotSpi.ClearProvider.PollStatus` | bios-erot-spi/bios_erot_spi.cpp:506-537 | after k answers "in progress" the progress is min(90, 30 + 15 k), with at most thirty queries |
| `BiosErotSpi.ClearProvider.RunOperation` | bios-erot-spi/bios_erot_spi.cpp:492-555 | completed exactly when an accepted request was followed by a complete answer within thirty queries, all before it "in progress"; the provider is idle again |
| `BiosErotSpi.ClearProvider.FinishOperation` | bios-erot-spi/bios_erot_spi.cpp:562-656 | publishes 100 and the outcome on the newest object only |
| `EnvQuoting.UnquoteQuoted` | src/nvme_updater.cpp:47-76 | unquoting inverts quoting on every string |
| `EnvQuoting.QuotedIsInjective` | src/nvme_updater.cpp:47-76 | different values never look the same |
| `EnvQuoting.QuotedIsOneLine` | src/nvme_updater.cpp:47-76 | the result is one physical line, and its first and last character are the only quotes, dollar signs and backquotes that no backslash precedes |
| `EnvQuoting.EscapesAre` | src/nvme_updater.cpp:47-76 | what is written for each character |
| `EnvQuoting.QuoteEnvValue` | src/nvme_updater.cpp:47-76 | the loop writes that text |
| `ImageVerifier.NoWrap` | src/signature_verifier.cpp:126-134 | 64-bit offsets do not wrap and the two-step comparison is the plain one |
| `ImageVerifier.VerifyApImageHash` | src/signature_verifier.cpp:118-167 | true exactly when the first min(count, 8) ranges lie in the image and hash to the table's values |
| `ImageVerifier.GetSignature` | src/signature_verifier.cpp:183-195 | the DER form of the 96 signature bytes, or nothing when they do not fit |
| `ImageVerifier.Verify` | src/signature_verifier.cpp:255-286 | true exactly when hashes match, payload and signature fit, digest and DER form are not empty, and the signature check holds |
| `ImageVerifier.AcceptedMeans` | src/signature_verifier.cpp:118-286 | acceptance spelled out: the first min(count, 8) table entries behind the image offset, and 96 signature bytes |

## Left out

- The transports (D-Bus, MCTP sockets, I2C, USB, GPIO, systemd units) and the file system: their answers are event parameters; logging and Redfish messages are not modelled.
- Timers are taken to start and stop when asked, except in `PowerSettle`, where a failing start is an event; delays and intervals are not measured, except for the poll time of a blob.
- The C locale is assumed for white space, and `size_t` is taken to hold every length. A size list of 2^32 lines or more reads past its end in the source; the model reports a mismatch.
- BlobDelivery.BlobSendContext.SendNextBlob: memory files that cannot be created are counted by one number for each callback instead of being attempted.
- TokenPackage.ParseTlvTokens: the list must start within the file, because the source forms the rest of the file from that offset unchecked; the two fallback branches of its exception handler are never reached, since the decoder throws only after the record's size is known.
- TokenPackage.UpdateTokenMap: packages of 4 GiB or more, whose 32-bit offset would wrap, and the package header and version dispatch are not modelled.
- TlvCodec.DecodeStructure: versions, raw values and typed values other than the serial number's bytes are not extracted; the encoder's source is not part of this model, its format is the decoder's.
- TokenInstall.DiscoverMCTPDevices: the early failure for an empty object list is left to the caller.
- FlashromSpi.RunAgrees: the second end that a terminated process's wait handler causes is excluded from runs; `SpiPorts.EndKeepsExactly` says when it is harmless for the port table, and `SpiPorts.SpiObject.OnProcessExit` what it does to the object.
- The exit of the flash process is one event: its arguments, the multiplexer lines, the expected times and the chip detection are not modelled.
- BiosErotSpi.ClearProvider.RunOperation: exceptions from starting the coroutine and from the progress setters are not modelled; starts that arrive while it is suspended are refused by `StartOperation`.
- Destruction of the ERoT resource while coroutines are suspended, and the parsing of its configuration strings.
- EndpointCache.MCTPDiscoveryResource.OnSignal: the health update that follows a signal, and an EID that changes while its interface stays.
- ImageVerifier.Verify: hashing, DER encoding, ECDSA and loading the file are parameters.
- The SMA endpoint monitors, which read the bus before they register.
- The item updaters, the Version and activation lifecycle, device-specific health tables, `extractModelFromComposite`, command-line mains: each is settled by one reading.
