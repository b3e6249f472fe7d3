# Novena Gateway: verified models of its stateful protocols

Novena Gateway is an edge appliance between field devices and a hub. Its own code keeps
several small protocols that have to survive crashes, redelivery, refused writes and
changes of owner, and some Modbus arithmetic on which every reading depends. This project
models them in Dafny and proves what they keep. `dafny verify dfyconfig.toml` checks all
of it.

| file | what it models |
|---|---|
| `CommandJournal.dfy` | the durable command journal and the guard that validates governed commands |
| `CommandProtocol.dfy` | deliveries, worker threads, device locks, journal writes and crashes as one state machine |
| `CommandRuns.dfy` | which deliveries can go wrong, what a failing worker overlaps with, a first command |
| `PolicyEpochs.dfy` | installing and retiring a control policy, crash point by crash point |
| `ConfigJournal.dfy` | the 500-entry replay journal for signed configuration, against an unbounded one |
| `Publisher.dfy` | the MQTT publisher: live queue, offline buffer, replay and claim tags |
| `Release.dfy` | the two-phase release of a gateway by its owner |
| `Watchdog.dfy` | uplink selection with hysteresis, route metrics and their restoration |
| `LogDedup.dfy` | de-duplication of remote log records |
| `ModbusRanges.dfy` | wide-range reads in chunks, joined and regrouped |
| `ModbusDecode.dfy` | the two integer decoders and their inverse |
| `Redaction.dfy` | rewriting of inline secrets in log text |
| `Reconnect.dfy` | the reconnect rate limiter of a Modbus slave |
| `ConfigApply.dfy` | connector changes with rollback |

Objects whose methods change fields are classes; each method is proved equal to a step
function on the object's value (`View()`, `Memory()`, `State()`), and the theorems about
runs are about those step functions. Ghost fields and fields marked "history" record what
happened and influence nothing.

Outside results are parameters: signatures, checksums and parsed time stamps are fields
of a message; whether a write reaches the disk, the storage takes an event, the client
accepts a message, a helper call or a connector start succeeds is an argument of the step;
clocks are arguments.

## What turned out not to hold as described

Each of these has its witness and, where it is a condition on runs, the exact one.

- At-most-once execution of commands depends on how deliveries arrive, because
  `validate` runs before the device lock and before the journal write
  (`rpc_handler.py:297-342`). `CommandRuns.HarmlessExactly` gives the discipline that is
  both enough and necessary in every safe state; it has to cover the command id as well
  as the device, since one id sent to two devices runs twice otherwise.
- A failing command leaves the device lock before its terminal record is written
  (`rpc_handler.py:411-420`). Of two begun commands of one device one has then failed
  (`OneHandlerPerDevice`, `FailingWorkerOverlaps`). Its late record can replace that of a
  redelivery which is still running, exactly when it is still owed at the redelivery
  (`FailureMasksARunningCommand`, `FailureMasksExactly`). A success whose answer cannot be
  sent is recorded again, as a failure (`UnansweredSuccessBecomesFailure`).
- The comment at `network_watchdog_handler.py:211` promises that a recovered primary is
  healthy for three checks before it preempts. The counter survives a switch, so a site
  keeps this promise exactly when at most two of its interfaces can be uplinks
  (`PromiseHoldsExactly`).
- Every failover takes at least one from the metric of the interface in use, and nothing
  gives it back while some uplink answers. After as many failovers as the first metric
  says, the watchdog is stuck on a dead uplink (`FailoversAreBounded`,
  `FlappingExhaustsTheMetric`).
- Accepted policy epochs can decrease after a crash, also when the crash does not fall
  inside an install: exactly when the policy file is ahead of the journal file
  (`CrashAdmitsOlderExactly`, `governed_commands.py:234-236`). A reset whose journal write
  is refused forgets the epoch in memory only (`RefusedResetFallsBehindExactly`).
- A configuration body is applied again after a restart exactly when the journal file is
  behind the journal in memory (`RestartRepeatsExactly`).
- A password rotation keeps the recorded release request
  (`novena_mqtt_publisher.py:808-875`), so a later redelivery can be acknowledged without a
  reset, exactly when a request is recorded and the claim is still there
  (`RotationDeceivesExactly`).
- A failed configuration update reports no rollback, and leaves the new file in place
  exactly when the exception came after the file was written and before the previous one
  was put back (`FailedUpdateKeepsTheNewFile`).
- In a wide-range read, a group of registers that decodes to nothing does not advance the
  address of the following keys (`bytes_modbus_uplink_converter.py:133-158`), and a skipped
  or short chunk shifts all registers behind it. Keys are right exactly when nothing is
  missing in front of a value, and registers stay in place exactly when nothing comes
  behind a request that did not bring all its registers.
- With more registers than the type needs and little word order, the telemetry decoder
  reads the last ones and the commissioning decoder the first ones.
- The last attempt of a reconnect batch returns failure even when it connects
  (`LastAttemptReportsFailure`, `slave.py:194-231`).
- Only what touches a marker is redacted: "password: hunter2" keeps its " hunter2"
  (`TextBehindADelimiterStays`). A secret shows through when a marker that is looked for
  earlier occurs in it (`RedactionHidesExactly`), and redacting twice changes every text
  that had a marker (`IdempotentExactly`).
- With summaries switched off the conservation of log records holds exactly for runs in
  which no entry with a positive count is evicted or renewed (`SilentLawHoldsExactly`,
  `SilentRunForgets`).
- Controls of two devices can share one policy key exactly when one device id extends the
  other at a colon (`ControlKeysCollideExactly`).

## Model

| member | source | states |
|---|---|---|
| `CommandJournal.WriteOnlyAdvances` | novena_gateway/gateway/governed_commands.py:96-119 | a write forgets no command, changes no other record, lowers no device's sequence, covers its own and leaves other devices alone |
| `CommandJournal.EventsAreTheNewestWrites` | novena_gateway/gateway/governed_commands.py:96-119 | after any writes the reconciliation events are the newest 10000 of them, in order |
| `CommandJournal.SequencesAreTheHighest` | novena_gateway/gateway/governed_commands.py:96-119 | a device's sequence is the highest that was ever written for it |
| `CommandJournal.DurableCommandJournal.constructor` | novena_gateway/gateway/governed_commands.py:35-53 | memory and file agree after loading; a missing or broken file is an empty journal |
| `CommandJournal.DurableCommandJournal.Persist` | novena_gateway/gateway/governed_commands.py:55-66 | the file becomes the whole memory, or stays as it was |
| `CommandJournal.DurableCommandJournal.Write` | novena_gateway/gateway/governed_commands.py:96-119 | the new record, sequence and bounded event list; a refused write still changes memory |
| `CommandJournal.DurableCommandJournal.RecordEpoch` | novena_gateway/gateway/governed_commands.py:87-90 | the epoch only rises and reaches the file when the write succeeds |
| `CommandJournal.DurableCommandJournal.Reset` | novena_gateway/gateway/governed_commands.py:68-72 | memory is emptied, the file only when the write succeeds |
| `GovernedCommands.GovernedCommandGuard.constructor` | novena_gateway/gateway/governed_commands.py:185-195 | a policy is loaded exactly when its signature and serial still hold |
| `GovernedCommands.GovernedCommandGuard.Validate` | novena_gateway/gateway/governed_commands.py:244-313 | the verdict in the gateway's order of checks: rejection, replay of a terminal record, uncertain outcome, stale sequence or acceptance |
| `GovernedCommands.AcceptedExactly` | novena_gateway/gateway/governed_commands.py:244-313 | accepted if and only if clock, policy, signature, schema, identities, window, epoch, device, key, revisions, checksum, mapping, type, unit, allowed set and limits all hold, the id is unknown and the sequence higher |
| `GovernedCommands.ReplayExactly` | novena_gateway/gateway/governed_commands.py:304-308 | answered from a record if and only if the same conditions hold and that record is the terminal one of its id |
| `GovernedCommands.UncertainExactly` | novena_gateway/gateway/governed_commands.py:304-311 | of the commands that pass, exactly those with an unfinished record are refused as uncertain |
| `GovernedCommands.RejectionsAreJustified` | novena_gateway/gateway/governed_commands.py:244-313 | every rejection names a condition that the command does violate |
| `GovernedCommands.InstallableExactly` | novena_gateway/gateway/governed_commands.py:208-236 | an installable bundle is one that is signed, checksummed, of schema 1, for this serial and not behind the recorded epoch |
| `GovernedCommands.ControlKeysCollideExactly` | novena_gateway/gateway/governed_commands.py:279-281 | controls of two devices can share a key if and only if one device id extends the other at a colon; those of one device never do |
| `GovernedCommands.ExtensionsCollide` | novena_gateway/gateway/governed_commands.py:279-281 | every control of an extending device shares its key with one of the other |
| `GovernedCommands.GovernedCommandGuard.MarkExecuting` | novena_gateway/gateway/governed_commands.py:403-413 | an executing record with the command's device and sequence is written, in memory and, unless refused, in the file |
| `GovernedCommands.GovernedCommandGuard.MarkTerminal` | novena_gateway/gateway/governed_commands.py:415-429 | a terminal record with the command's device, sequence and outcome replaces it in the same way |
| `GovernedCommands.GovernedCommandGuard.InstallPolicy` | novena_gateway/gateway/governed_commands.py:208-236 | a refused bundle, or a policy file that cannot be written, changes nothing; otherwise file and policy are replaced and the epoch is recorded, in the file unless that write is refused |
| `GovernedCommands.GovernedCommandGuard.ResetForNewClaim` | novena_gateway/gateway/governed_commands.py:155-162 | policy and journal are cleared; the policy file goes only after the journal write, and stays when either fails |
| `CommandProtocol.AcceptedIsNew` | novena_gateway/gateway/governed_commands.py:304-313 | acceptance implies an unknown command id, a higher sequence and a named device |
| `CommandProtocol.LockStep` | novena_gateway/gateway/rpc_handler.py:325-424 | every step keeps the lock table equal to who is between lock and unlock, in both directions |
| `CommandProtocol.OneHandlerPerDevice` | novena_gateway/gateway/governed_commands.py:359-361 | in every run, with crashes and resets, at most one worker per device is between taking and leaving the lock, and of two begun workers of one device one has failed |
| `CommandProtocol.JournalStep` | novena_gateway/gateway/rpc_handler.py:325-424 | every step but a reset keeps: workers and executions stem from deliveries that came before the file knew their command, and the file forgets no command |
| `CommandProtocol.ExecutionsPrecedeTheirRecord` | novena_gateway/gateway/rpc_handler.py:297-342 | under every interleaving, each executed command is in the journal file, and its delivery was validated when the file had never known it |
| `CommandProtocol.DurableCommandsNeverRestart` | novena_gateway/gateway/governed_commands.py:304-313 | once an id is in the file, every later delivery, also after restarts, is rejected or answered from the terminal record and starts no worker |
| `CommandProtocol.SequenceStep` | novena_gateway/gateway/governed_commands.py:96-119 | every step keeps the durable sequence mark of a device at or above everything journaled or executed on it |
| `CommandProtocol.SafeRun` | novena_gateway/gateway/rpc_handler.py:297-424 | disciplined runs keep the invariant behind at-most-once |
| `CommandProtocol.DisciplinedDeliveriesExecuteOnce` | novena_gateway/gateway/rpc_handler.py:297-342 | with harmless deliveries, any run with crashes, refused writes and policy changes executes each command id at most once and each device's sequence numbers in strictly increasing order |
| `CommandProtocol.SerializedDeliveriesExecuteOnce` | novena_gateway/gateway/rpc_handler.py:297-342 | in particular when each accepted delivery reaches the journal before the next one for its device or with its id is validated |
| `CommandRuns.HarmfulDeliveryGoesWrong` | novena_gateway/gateway/rpc_handler.py:297-342 | every accepted delivery that is not harmless can make a command run twice or out of order without any further delivery |
| `CommandRuns.HarmlessExactly` | novena_gateway/gateway/rpc_handler.py:297-342 | in every safe state an accepted delivery is harmless if and only if at-most-once and order survive everything that workers, crashes and policies do afterwards |
| `CommandRuns.OvertakingDeliveryAlsoExecutes` | novena_gateway/gateway/rpc_handler.py:297-342 | two deliveries that would each be accepted both run, in every state, when the second is validated before the first is journaled |
| `CommandRuns.FailingWorkerOverlaps` | novena_gateway/gateway/rpc_handler.py:325-420 | of two waiting workers of one device, one can owe its failure record while the other runs its handler |
| `CommandRuns.FailureMasksARunningCommand` | novena_gateway/gateway/rpc_handler.py:411-420 | also in serialized runs a late failure record replaces that of a running redelivery and answers all later deliveries |
| `CommandRuns.FailureMasksExactly` | novena_gateway/gateway/rpc_handler.py:411-420 | after a harmless delivery a running handler beside a terminal record of its command can come about if and only if an earlier worker with that id still owes its record at the delivery |
| `CommandRuns.UnansweredSuccessBecomesFailure` | novena_gateway/gateway/rpc_handler.py:395-420 | a success whose answer raises inside the lock is recorded again as a failure |
| `CommandRuns.StepsRecord` | novena_gateway/gateway/rpc_handler.py:325-420 | a write that succeeds leaves, in memory and file, a record with the command's own device and sequence and the outcome of the step |
| `CommandRuns.CompletedCommandIsAnswered` | novena_gateway/gateway/rpc_handler.py:395-420 | after an answered success memory and file hold its terminal record, and as long as no later step writes that id every passing delivery of it, also after crashes, is answered with exactly that outcome |
| `CommandRuns.CompletedCommandIsAnsweredForGood` | novena_gateway/gateway/governed_commands.py:304-308 | when no other worker has the id, this holds for every continuation without a reset |
| `CommandRuns.WorkersEndExactly` | novena_gateway/gateway/rpc_handler.py:325-424 | a worker leaves exactly with its success recorded and answered or with its failure record, and one that raises gives the lock back and owes that record |
| `CommandRuns.NoCommandIsDropped` | novena_gateway/gateway/rpc_handler.py:325-424 | in every run without stop or reset, an accepted command whose worker is gone has ended in one of these two ways and is in the journal |
| `CommandRuns.RestartLoads` | novena_gateway/gateway/governed_commands.py:185-195 | a restart loads the journal file as it is, and the policy file's policy exactly when it is signed and for this serial |
| `CommandRuns.InstallAdopts` | novena_gateway/gateway/governed_commands.py:208-236 | an offered bundle becomes policy and file exactly when it is signed, checksummed, for this serial, not stale and its file can be written |
| `CommandRuns.FirstCommandRuns` | novena_gateway/gateway/rpc_handler.py:297-342 | from the start a policy is installed and a command accepted and executed, in a serialized run |
| `PolicyEpochs.LoadedPolicyIsNotBehindTheJournal` | novena_gateway/gateway/governed_commands.py:185-236 | at every crash point a loaded policy has at least the durable epoch, provided no reset is refused while the file records an epoch |
| `PolicyEpochs.RefusedResetFallsBehindExactly` | novena_gateway/gateway/governed_commands.py:155-162 | after a refused reset an older policy can end up loaded if and only if the journal file records an epoch |
| `PolicyEpochs.OrderlyEpochsNeverDecrease` | novena_gateway/gateway/governed_commands.py:208-236 | as long as no crash finds the policy file ahead of the journal file, and without resets, accepted epochs never decrease, refused writes included, and the policy in force has the epoch recorded in memory |
| `PolicyEpochs.CrashAdmitsOlderExactly` | novena_gateway/gateway/governed_commands.py:208-236 | in every state of such a run a crash lets a lower epoch in if and only if the policy file is ahead of the journal file |
| `PolicyEpochs.RefusedEpochAdmitsOlderEpoch` | novena_gateway/gateway/governed_commands.py:87-90 | an install that completed, but whose epoch write was refused, admits older epochs after a crash |
| `PolicyEpochs.TornInstallAdmitsOlderEpoch` | novena_gateway/gateway/governed_commands.py:234-236 | one crash between policy file and epoch record admits every epoch in between afterwards |
| `PolicyEpochs.ProtocolStepsAreTheseActions` | novena_gateway/gateway/governed_commands.py:155-236 | each command-protocol step does to the epochs what its single actions do one after the other |
| `ConfigJournal.SortSorts` | novena_gateway/gateway/deployment_setup.py:87-93 | the sort is a rearrangement of the entries, newest revision first |
| `ConfigJournal.TrimKeepsNewest` | novena_gateway/gateway/deployment_setup.py:87-93 | with distinct revisions exactly the min(n, 500) newest entries stay |
| `ConfigJournal.RecordRefines` | novena_gateway/gateway/deployment_setup.py:79-94 | recording keeps the relation to the unbounded journal and never evicts the entry just recorded |
| `ConfigJournal.JudgeAgrees` | novena_gateway/gateway/deployment_setup.py:168-179 | eviction only turns a replay into a stale rejection |
| `ConfigJournal.TrimmedJournalRefinesUnbounded` | novena_gateway/gateway/deployment_setup.py:79-94 | in every run with keys bound to revisions, refused writes, restarts and resets included, both journals apply and complete the same bodies |
| `ConfigJournal.EachKeyCompletesOnce` | novena_gateway/gateway/deployment_setup.py:168-186 | no idempotency key completes twice, whatever has been evicted or refused, as long as no restart finds the file behind and nothing is reset |
| `ConfigJournal.RestartRepeatsExactly` | novena_gateway/gateway/deployment_setup.py:56-94 | after such a run a restart lets a completed body be applied again if and only if the file is behind |
| `ConfigJournal.DivergesExactlyOnEvictedKeys` | novena_gateway/gateway/deployment_setup.py:168-179 | the two journals disagree on applying a body if and only if its key was evicted and it comes with a revision above the mark |
| `ConfigJournal.FirstKeyIsEvicted` | novena_gateway/gateway/deployment_setup.py:87-93 | after 501 fresh bodies the first key is the one that is gone |
| `ConfigJournal.RebornKeyAppliesTwice` | novena_gateway/gateway/deployment_setup.py:168-179 | without bound keys that key, with a higher revision, is applied again |
| `ConfigJournal.ConfigReplayJournal.constructor` | novena_gateway/gateway/deployment_setup.py:38-54 | memory and file agree after loading |
| `ConfigJournal.ConfigReplayJournal.Get` | novena_gateway/gateway/deployment_setup.py:74-77 | the entry of a key, if there is one |
| `ConfigJournal.ConfigReplayJournal.Record` | novena_gateway/gateway/deployment_setup.py:79-94 | mark raised, entry assigned in dictionary order, list trimmed; the file follows unless its write is refused |
| `ConfigJournal.ConfigReplayJournal.Reset` | novena_gateway/gateway/deployment_setup.py:96-100 | the journal is empty; the file follows unless its write is refused |
| `ConfigJournal.ConfigReplayJournal.Verify` | novena_gateway/gateway/deployment_setup.py:131-179 | the guard's verdict in its order of checks: refusal, replay, stale or fresh, with the conditions of VerdictsExactly |
| `ConfigJournal.VerdictsExactly` | novena_gateway/gateway/deployment_setup.py:131-179 | each verdict has its exact condition: fresh and stale need a genuine body with an unknown key, a replay returns the result recorded for the key, all else is refused |
| `ConfigJournal.RefusalsAreJustified` | novena_gateway/gateway/deployment_setup.py:131-179 | every refusal names what is wrong with the envelope |
| `ConfigJournal.CompletedIsReplayed` | novena_gateway/gateway/deployment_setup.py:168-186 | in orderly runs a completed body is answered by its result while its entry is held, and as stale afterwards; it is still held unless the 500 entries held all have higher revisions |
| `Publisher.MessagesAreConserved` | novena_gateway/gateway/novena_mqtt_publisher.py:286-319 | across restarts each accepted message is queued, stored, delivered, discarded, lost, lost by an earlier process, or was in a live queue at a crash; the counter equals the number of lost ones; queue, storage and losses exclude each other |
| `Publisher.EveryExitHasItsReason` | novena_gateway/gateway/novena_mqtt_publisher.py:533-641 | a message counts as foreign only when its tag differs from the claim, is discarded only for that or a release, lost only when the storage refuses it or a full queue pushes it out, delivered only when the client accepts it, and a restart takes only the live queue and the counted losses |
| `Publisher.BatchLeavesOnlyWhenDone` | novena_gateway/gateway/novena_mqtt_publisher.py:587-641 | a replay batch leaves the storage only when each of its events was accepted, or was dropped because its tag differed from the claim in force |
| `Publisher.HandedMessagesCarryTheCurrentClaim` | novena_gateway/gateway/novena_mqtt_publisher.py:554-624 | every message handed over, also one stored by an earlier process, carries the claim in force then, and a telemetry or log payload names it |
| `Publisher.MessagesSayWhatWasPublished` | novena_gateway/gateway/novena_mqtt_publisher.py:286-336 | in every run with restarts each message queued, stored or handed has the topic and payload of its publish call, plus the key "claim_id" exactly when the topic is scoped and a claim set |
| `Publisher.QueueIsInOrder` | novena_gateway/gateway/novena_mqtt_publisher.py:286-313 | the live queue is in the order of the publish calls and within its bound |
| `Publisher.FirstInFirstOut` | novena_gateway/gateway/novena_mqtt_publisher.py:286-313 | no message leaves the live queue before an earlier one |
| `Publisher.PublishedMessagesArrive` | novena_gateway/gateway/novena_mqtt_publisher.py:286-319 | a call that is taken puts its message last in the queue, or else in the storage, or counts it as lost |
| `Publisher.DrainHandsExactly` | novena_gateway/gateway/novena_mqtt_publisher.py:533-576 | the publish loop hands over the oldest message exactly when tag, release, connection and mode allow it, and stores it exactly when it belongs here and could not be delivered |
| `Publisher.ReplayHandsExactly` | novena_gateway/gateway/novena_mqtt_publisher.py:605-632 | the same for each event of a replay, with when it counts and when the replay stops |
| `Publisher.StorageIsClearedExactly` | novena_gateway/gateway/novena_mqtt_publisher.py:634-641 | a batch leaves the storage exactly when all its events counted, and erasing leaves nothing unless a replay is under way |
| `Publisher.ReleaseIsSilent` | novena_gateway/gateway/novena_mqtt_publisher.py:286-319 | from the begin of a release on, restarts into the pending state included, no message is accepted, handed over, queued or stored until an activation |
| `Publisher.OwnersAreSeparated` | novena_gateway/gateway/novena_mqtt_publisher.py:554-624 | after a change of owner everything handed over, in any run up to the next change, belongs to the new one, or to nobody once the claim is retired |
| `Publisher.ActivationOpens` | novena_gateway/gateway/novena_mqtt_publisher.py:861-866 | after an activation the next call is taken for the new owner and goes last into queue or storage |
| `Publisher.NovenaMqttPublisher.constructor` | novena_gateway/gateway/novena_mqtt_publisher.py:43-141 | a new process keeps the storage, loses queue and counters, and takes claim and release flag from the configuration |
| `Publisher.NovenaMqttPublisher.BufferEvent` | novena_gateway/gateway/novena_mqtt_publisher.py:315-319 | stored, counted as dropped, or discarded during a release |
| `Publisher.NovenaMqttPublisher.Publish` | novena_gateway/gateway/novena_mqtt_publisher.py:286-313 | tagging, queueing with drop of the oldest, buffering while offline |
| `Publisher.NovenaMqttPublisher.PublishNext` | novena_gateway/gateway/novena_mqtt_publisher.py:533-576 | one iteration of the publish loop |
| `Publisher.NovenaMqttPublisher.ReplayNext` | novena_gateway/gateway/novena_mqtt_publisher.py:605-632 | one event of a replay batch |
| `Publisher.NovenaMqttPublisher.ReplayPack` | novena_gateway/gateway/novena_mqtt_publisher.py:587-641 | a whole batch equals its single events in turn, and is removed only when all counted |
| `Publisher.NovenaMqttPublisher.ClearClaimBuffer` | novena_gateway/gateway/novena_mqtt_publisher.py:772-789 | queue and storage are erased, or only the queue when a replay does not stop |
| `Release.StepKeeps` | novena_gateway/gateway/novena_mqtt_publisher.py:733-770 | every step of a release, crash or failure included, and a rotation while no request is recorded, keeps: a recorded request is backed by a reset and an empty pending configuration, and nothing runs then |
| `Release.AcknowledgementsAreBacked` | novena_gateway/gateway/novena_mqtt_publisher.py:733-806 | with rotations only while no request is recorded, an acknowledgement for r is sent only when r is durably recorded, the file is pending without connectors, a reset for r has completed, and no connector runs |
| `Release.ResetStopsEverything` | novena_gateway/gateway/novena_gateway.py:564-580 | from a completed reset on, in every run of release messages, failures and crashes, no connector runs and none is configured, in particular at every acknowledgement that follows |
| `Release.StartsExactly` | novena_gateway/gateway/novena_gateway.py:458-463 | a start runs exactly the configured connectors of an operational gateway and none of a pending one |
| `Release.UnverifiedChangesNothing` | novena_gateway/gateway/novena_mqtt_publisher.py:733-770 | a request that is not verified, or names another claim or none, changes nothing |
| `Release.ReleaseCompletes` | novena_gateway/gateway/novena_mqtt_publisher.py:733-770 | a verified new request, when nothing fails, ends recorded, emptied and acknowledged |
| `Release.FailedResetIsNoReset` | novena_gateway/gateway/novena_mqtt_publisher.py:733-770 | a reset that raises records and acknowledges nothing; if it had stopped the connectors none runs in any run that follows, otherwise they run on |
| `Release.ReleasedGatewayForgetsItsOwner` | novena_gateway/gateway/novena_mqtt_publisher.py:449-490 | after a completed release, with a crash in between or not, retiring the credentials removes the claim everywhere, keeps the request, and no release message is taken any more |
| `Release.OwnerIsForgottenOnlyAfterRelease` | novena_gateway/gateway/novena_mqtt_publisher.py:449-490 | in every run with failures and crashes the file loses the claim only when a request is durably recorded, its reset has completed and nothing of the site is left |
| `Release.NoConnectorAfterRestart` | novena_gateway/gateway/novena_gateway.py:458-462 | once phase one is durable no connector runs after any later restart, whatever release messages, failures and crashes come before and after it |
| `Release.FileStaysPending` | novena_gateway/gateway/novena_mqtt_publisher.py:733-770 | from phase one on the file stays pending in every run of release messages |
| `Release.InterruptedReleaseRunsAgain` | novena_gateway/gateway/novena_mqtt_publisher.py:733-770 | after a crash before phase two, redelivery starts over and the acknowledgement follows another reset |
| `Release.RotationBreaksTheGuarantee` | novena_gateway/gateway/novena_mqtt_publisher.py:808-875 | from every idle state with a recorded request and a claim, a rotation lets that request be acknowledged with any connectors configured and no reset |
| `Release.RotationDeceivesExactly` | novena_gateway/gateway/novena_mqtt_publisher.py:808-875 | after a rotation an acknowledgement that nothing backs can follow if and only if a request is recorded and the claim is still there |
| `Release.ReleaseHandler.constructor` | novena_gateway/gateway/novena_mqtt_publisher.py:63-67 | the release fields follow the configuration file |
| `Release.ReleaseHandler.HandleRelease` | novena_gateway/gateway/novena_mqtt_publisher.py:733-770 | one call equals the protocol's steps in turn, for every combination of failures |
| `Watchdog.PreferredIsFirstHealthy` | novena_gateway/gateway/network_watchdog_handler.py:185-210 | the preferred interface is healthy, and there is none exactly when no uplink is healthy |
| `Watchdog.HealthyExactly` | novena_gateway/gateway/network_watchdog_handler.py:106-203 | an interface is healthy exactly when it acts as an uplink, has a route, is up and answers |
| `Watchdog.CheapestIsRouted` | novena_gateway/gateway/network_watchdog_handler.py:185-210 | the assumed current interface is the routed uplink with the smallest metric |
| `Watchdog.EarlierInterfacesLose` | novena_gateway/gateway/network_watchdog_handler.py:203-210 | the preferred interface is the first healthy one, and the cheapest the first of its metric |
| `Watchdog.LowestOtherIsLowest` | novena_gateway/gateway/network_watchdog_handler.py:224-233 | the metric to beat is the smallest among the other routed uplinks |
| `Watchdog.CheckSelectsAHealthyUplink` | novena_gateway/gateway/network_watchdog_handler.py:185-252 | after a check no interface is active exactly when none is healthy, and an unhealthy one is active only when its metric change was refused |
| `Watchdog.SwitchWinsTheRoute` | novena_gateway/gateway/network_watchdog_handler.py:224-252 | at the end of a check that switched, restorations included, the metric in force on the chosen uplink, explicit or automatic, is below that of every other routed uplink, and not negative when written |
| `Watchdog.CheckKeepsOriginalsAbove` | novena_gateway/gateway/network_watchdog_handler.py:185-263 | a check keeps every recorded original, explicit or automatic, above the metric in force |
| `Watchdog.EverySwitchWinsTheRoute` | novena_gateway/gateway/network_watchdog_handler.py:185-263 | in every run whose routes follow the profiles, every switch ends with the best route |
| `Watchdog.WritesTargetUplinks` | novena_gateway/gateway/network_watchdog_handler.py:224-263 | every metric write of a check targets an interface of the site that is configured as an uplink, or has a default route and no other role |
| `Watchdog.ActiveBelongsToTheSite` | novena_gateway/gateway/network_watchdog_handler.py:185-252 | in every run the active interface is one of the configured ones |
| `Watchdog.CounterIsTheStreak` | novena_gateway/gateway/network_watchdog_handler.py:211-221 | the counter is the length of the unbroken streak of checks that found a better interface |
| `Watchdog.PreemptionTakesThreeChecks` | novena_gateway/gateway/network_watchdog_handler.py:211-221 | a healthy interface is preempted only after three such checks |
| `Watchdog.TwoUplinksProveThePrimary` | novena_gateway/gateway/network_watchdog_handler.py:211-221 | with at most two possible uplinks, whatever the other interfaces, a preempting primary was healthy in all three checks |
| `Watchdog.ThreeUplinksCascade` | novena_gateway/gateway/network_watchdog_handler.py:211-221 | with any three possible uplinks, whatever the other roles, a primary that was never healthy before preempts after one check |
| `Watchdog.PromiseHoldsExactly` | novena_gateway/gateway/network_watchdog_handler.py:211-221 | every run of a site keeps the three-check promise if and only if at most two interfaces can be uplinks |
| `Watchdog.FailoversAreBounded` | novena_gateway/gateway/network_watchdog_handler.py:224-252 | while routes stay and some uplink answers, a run has at most as many failovers as the metric in force on the first interface in use, explicit or automatic |
| `Watchdog.ExhaustedMetricBlocksTheSwitch` | novena_gateway/gateway/network_watchdog_handler.py:224-252 | an unhealthy interface of metric zero stays in use beside a healthy one |
| `Watchdog.FlappingExhaustsTheMetric` | novena_gateway/gateway/network_watchdog_handler.py:224-263 | two uplinks failing in turn reach exactly that bound, and the next failover is refused |
| `Watchdog.RunRemembers` | novena_gateway/gateway/network_watchdog_handler.py:156-183 | in every run each recorded original is the start value and each unrecorded profile still has it |
| `Watchdog.StopRestoresEverything` | novena_gateway/gateway/network_watchdog_handler.py:171-183 | a stop whose calls succeed returns every profile to its start value |
| `Watchdog.StopRestoresExactly` | novena_gateway/gateway/network_watchdog_handler.py:171-183 | a stop puts back exactly the recorded metrics whose own profile is still there and keeps the others recorded |
| `Watchdog.CheckRestoresExactly` | novena_gateway/gateway/network_watchdog_handler.py:253-263 | a check puts back exactly those of them that act as uplinks of the site and are not in use afterwards |
| `Watchdog.PassiveRunsChangeNothing` | novena_gateway/gateway/network_watchdog_handler.py:156-183 | unless the mode is active no run of checks changes a metric |
| `Watchdog.NetworkWatchdog.constructor` | novena_gateway/gateway/network_watchdog_handler.py:19-46 | no active interface, no streak, nothing recorded |
| `Watchdog.NetworkWatchdog.HealthyUplinks` | novena_gateway/gateway/network_watchdog_handler.py:185-210 | exactly the healthy uplinks, in order of preference, the preferred one in front |
| `Watchdog.NetworkWatchdog.CheapestUplink` | novena_gateway/gateway/network_watchdog_handler.py:185-210 | the routed uplink of smallest metric, the first on a tie |
| `Watchdog.NetworkWatchdog.LowestMetricExcept` | novena_gateway/gateway/network_watchdog_handler.py:224-233 | the smallest metric among the others |
| `Watchdog.NetworkWatchdog.SetInterfaceMetric` | novena_gateway/gateway/network_watchdog_handler.py:156-169 | the write, and the original remembered before the first change only |
| `Watchdog.NetworkWatchdog.Restore` | novena_gateway/gateway/network_watchdog_handler.py:171-183 | one by one equals all at once |
| `Watchdog.NetworkWatchdog.Choose` | novena_gateway/gateway/network_watchdog_handler.py:185-221 | current interface, candidate and counter |
| `Watchdog.NetworkWatchdog.SwitchTo` | novena_gateway/gateway/network_watchdog_handler.py:224-252 | the switch, with its metric change when needed |
| `Watchdog.NetworkWatchdog.Select` | novena_gateway/gateway/network_watchdog_handler.py:185-252 | the selection part of a check |
| `Watchdog.NetworkWatchdog.CheckNetwork` | novena_gateway/gateway/network_watchdog_handler.py:185-263 | a whole check |
| `Watchdog.NetworkWatchdog.RestoreMetrics` | novena_gateway/gateway/network_watchdog_handler.py:171-183 | every recorded metric that can be put back is |
| `LogDedup.SuppressedRecordsAreConserved` | novena_gateway/gateway/remote_log_handler.py:151-219 | per signature, eligible records among the events = forwarded + counted in summaries + still waiting in the cache, for every sequence of events |
| `LogDedup.PlainRecordsAreForwarded` | novena_gateway/gateway/remote_log_handler.py:111-160 | every handled record outside de-duplication is forwarded each time it is emitted, and no record below the level or of the gateway's own publisher and log handler ever is |
| `LogDedup.NewRecordsAreForwarded` | novena_gateway/gateway/remote_log_handler.py:151-180 | after any events a handled record whose level, logger and message together were not emitted before is forwarded |
| `LogDedup.RepetitionsAreSuppressed` | novena_gateway/gateway/remote_log_handler.py:151-180 | an eligible record that repeats level, logger and message of one forwarded less than a window before is suppressed |
| `LogDedup.SuppressionHasAReason` | novena_gateway/gateway/remote_log_handler.py:151-180 | a record is suppressed only when one with its signature was forwarded less than a window before |
| `LogDedup.CacheIsBounded` | novena_gateway/gateway/remote_log_handler.py:182-192 | in every run the cache keeps to its size |
| `LogDedup.SummarySays` | novena_gateway/gateway/remote_log_handler.py:194-207 | a summary names the signature, the number of suppressed records and the whole seconds they took |
| `LogDedup.SilentLawHoldsExactly` | novena_gateway/gateway/remote_log_handler.py:182-207 | with summaries off the law holds if and only if no entry of the signature with a positive count is evicted or renewed |
| `LogDedup.SilentRunForgets` | novena_gateway/gateway/remote_log_handler.py:166-180 | for every eligible record three emissions across a window break it |
| `LogDedup.EvictionAccounts` | novena_gateway/gateway/remote_log_handler.py:182-192 | eviction moves counts into summaries and loses none |
| `LogDedup.FlushAccounts` | novena_gateway/gateway/remote_log_handler.py:209-219 | expiry moves counts into summaries and loses none |
| `LogDedup.FlushLeavesOnlyFresh` | novena_gateway/gateway/remote_log_handler.py:209-219 | after a flush with summaries on exactly the entries inside their window are left, and after a stop none |
| `LogDedup.RepeatedForwardsAreSpaced` | novena_gateway/gateway/remote_log_handler.py:151-192 | two forwards of one signature inside the window imply at least cache-size other signatures in between |
| `LogDedup.HistoryIsFaithful` | novena_gateway/gateway/remote_log_handler.py:151-192 | the history behind that law lists exactly the eligible records of the events, and forwards as many as the lines do |
| `LogDedup.RemoteLogHandler.constructor` | novena_gateway/gateway/remote_log_handler.py:57-87 | an empty cache and buffer |
| `LogDedup.RemoteLogHandler.Append` | novena_gateway/gateway/remote_log_handler.py:79 | the buffer holds the newest lines since the last flush |
| `LogDedup.RemoteLogHandler.AppendSummary` | novena_gateway/gateway/remote_log_handler.py:194-207 | a summary with count and duration, when summaries are on and something was suppressed |
| `LogDedup.RemoteLogHandler.RememberDuplicate` | novena_gateway/gateway/remote_log_handler.py:182-192 | the newest entry goes last, the least recently touched leave with their summaries |
| `LogDedup.RemoteLogHandler.FindDuplicate` | novena_gateway/gateway/remote_log_handler.py:161-165 | the cached entry of a signature |
| `LogDedup.RemoteLogHandler.Emit` | novena_gateway/gateway/remote_log_handler.py:111-180 | one record: ignored by the filters, forwarded, or suppressed and counted |
| `LogDedup.RemoteLogHandler.AppendExpired` | novena_gateway/gateway/remote_log_handler.py:209-219 | expired entries, or on stop all, leave with their summaries |
| `LogDedup.RemoteLogHandler.Flush` | novena_gateway/gateway/remote_log_handler.py:227-248 | what is published is exactly the newest lines, up to the buffer's size, appended since the last flush |
| `LogDedup.SplitIntoBatches` | novena_gateway/gateway/remote_log_handler.py:236-243 | all lines, in order, in full batches but for the last |
| `ModbusRanges.ParseWideRange` | novena_gateway/connectors/modbus/utils.py:29-52 | the loop computes the chunks; an empty range is an error |
| `ModbusRanges.NoProgressBelowOne` | novena_gateway/connectors/modbus/utils.py:39-46 | the loop makes no progress exactly when the chunk limit is below one |
| `ModbusRanges.ChunksTile` | novena_gateway/connectors/modbus/utils.py:29-52 | requests are contiguous, each within 1..max, and cover exactly the range |
| `ModbusRanges.ChunksAreFull` | novena_gateway/connectors/modbus/utils.py:29-52 | all requests but the last are as large as the limit and follow each other |
| `ModbusRanges.ReadRanges` | novena_gateway/connectors/modbus/modbus_connector.py:304-321 | one response per request, full, short or invalid, in order, up to the first timeout |
| `ModbusRanges.JoinChunks` | novena_gateway/connectors/modbus/bytes_modbus_uplink_converter.py:98-118 | valid chunks are put one after the other |
| `ModbusRanges.TilesJoin` | novena_gateway/connectors/modbus/bytes_modbus_uplink_converter.py:91-118 | without a gap the joined responses are the first registers of the range |
| `ModbusRanges.FullAnswersCover` | novena_gateway/connectors/modbus/bytes_modbus_uplink_converter.py:91-118 | full answers leave no gap and bring all registers |
| `ModbusRanges.MissingRegistersShiftExactly` | novena_gateway/connectors/modbus/bytes_modbus_uplink_converter.py:98-118 | registers keep their place for every device if and only if nothing comes behind a request that was refused or answered short |
| `ModbusRanges.Regroup` | novena_gateway/connectors/modbus/bytes_modbus_uplink_converter.py:133-158 | the converter's loop over groups; one that raises loses all |
| `ModbusRanges.RegroupedValues` | novena_gateway/connectors/modbus/bytes_modbus_uplink_converter.py:133-158 | each group decodes as a read of its own address would |
| `ModbusRanges.DriftIsHole` | novena_gateway/connectors/modbus/bytes_modbus_uplink_converter.py:133-158 | keys equal those of single reads if and only if nothing is missing in front of a value |
| `ModbusRanges.ReadWideRange` | novena_gateway/connectors/modbus/modbus_connector.py:304-373 | for every range, chunk limit and way of answering without a gap, the read equals one read per address over the registers that came back, if and only if nothing is missing in front of a value |
| `ModbusRanges.ReadIntegers` | novena_gateway/connectors/modbus/bytes_modbus_uplink_converter.py:287-334 | for the integer types a fully answered read equals single reads unconditionally |
| `ModbusDecode.DecodeValidationValue` | novena_gateway/gateway/discovery_service.py:1117-1148 | the commissioning decoder with its error cases |
| `ModbusDecode.EncodeWords` | novena_gateway/gateway/discovery_service.py:1142-1147 | the bytes of the words in the given byte order |
| `ModbusDecode.OrderRegisters` | novena_gateway/connectors/modbus/bytes_modbus_uplink_converter.py:235-246 | bytes swapped in every word, then words reversed |
| `ModbusDecode.DecodersAgree` | novena_gateway/connectors/modbus/bytes_modbus_uplink_converter.py:287-334 | both decoders read the same integer from exactly the registers of any 16-, 32- or 64-bit type in all four orders |
| `ModbusDecode.TelemetryInFigures` | novena_gateway/connectors/modbus/bytes_modbus_uplink_converter.py:287-334 | the decoded value is the positional number that the registers spell in the given orders, less the range when its sign bit is set |
| `ModbusDecode.EncodeInvertsDecode` | novena_gateway/connectors/modbus/bytes_modbus_uplink_converter.py:287-334 | every register content decodes into the type's range and is the encoding of that value |
| `ModbusDecode.DecodeInvertsEncode` | novena_gateway/connectors/modbus/bytes_modbus_uplink_converter.py:287-334 | every value of the range is decoded from its encoding: the decode is a bijection |
| `ModbusDecode.TelemetryWindow` | novena_gateway/connectors/modbus/bytes_modbus_uplink_converter.py:287-334 | which registers the telemetry decoder looks at when there are too many |
| `ModbusDecode.CommissionedWindow` | novena_gateway/gateway/discovery_service.py:1139 | the commissioning decoder looks at the first ones |
| `ModbusDecode.DecodersAgreeExactly` | novena_gateway/gateway/discovery_service.py:1117-1148 | with at least the registers needed, they agree if and only if the word order is big or first and last registers coincide |
| `Redaction.EndOfSecret` | novena_gateway/gateway/redaction.py:41-60 | the end of a secret |
| `Redaction.RedactMarker` | novena_gateway/gateway/redaction.py:41-60 | one pass of the rewriting loop; it terminates |
| `Redaction.RedactText` | novena_gateway/gateway/redaction.py:41-60 | all passes; terminates on every text |
| `Redaction.ReplaceKeepsSafe` | novena_gateway/gateway/redaction.py:41-60 | a replacement for one marker never undoes the work for another |
| `Redaction.PassIsSafe` | novena_gateway/gateway/redaction.py:41-60 | a pass closes every occurrence of its marker and keeps all others closed |
| `Redaction.EveryMarkerIsClosed` | novena_gateway/gateway/redaction.py:41-60 | in the output every marker, in any case, is directly followed by the token, and the token by a delimiter or the end |
| `Redaction.KeysAreTheSensitiveWords` | novena_gateway/gateway/redaction.py:7-18 | the markers are made from exactly the ten sensitive words |
| `Redaction.SensitiveWordsAreRedacted` | novena_gateway/gateway/redaction.py:41-60 | wherever one of these words, in any case, is followed by "=" or ":" in the output, the token and then a delimiter or the end come next |
| `Redaction.OutlineIsKept` | novena_gateway/gateway/redaction.py:41-60 | blanks, commas, semicolons and closing braces come through unchanged and in order |
| `Redaction.UnchangedExactly` | novena_gateway/gateway/redaction.py:41-60 | a text comes back unchanged if and only if no marker occurs in it |
| `Redaction.UnchangedWordByWord` | novena_gateway/gateway/redaction.py:41-60 | the same in terms of the words themselves |
| `Redaction.RedactionHidesTheSecret` | novena_gateway/gateway/redaction.py:41-60 | the output does not depend on what stands between a marker and the next delimiter, as long as no marker looked for earlier occurs in it |
| `Redaction.RedactionHidesExactly` | novena_gateway/gateway/redaction.py:41-60 | where the marker stands alone that condition is also necessary |
| `Redaction.IdempotentExactly` | novena_gateway/gateway/redaction.py:41-60 | redacting twice gives the same as once if and only if no marker occurs |
| `Redaction.TextBehindADelimiterStays` | novena_gateway/gateway/redaction.py:41-60 | from a delimiter on, text without markers survives |
| `Reconnect.Clamp` | novena_gateway/connectors/modbus/slave.py:101-118 | each setting is raised to its lower bound and otherwise kept |
| `Reconnect.Slave.constructor` | novena_gateway/connectors/modbus/slave.py:101-118 | no attempts made |
| `Reconnect.Slave.Connect` | novena_gateway/connectors/modbus/slave.py:194-231 | one call, whether connected, stopped, refused or attempting |
| `Reconnect.AttemptsExactly` | novena_gateway/connectors/modbus/slave.py:194-231 | an attempt is made if and only if the spacing has passed and the batch is not used up, or the back-off has passed |
| `Reconnect.RetriesNeverStop` | novena_gateway/connectors/modbus/slave.py:194-231 | the first call, and every call a spacing and a back-off after the last attempt, makes one |
| `Reconnect.BatchGoesOn` | novena_gateway/connectors/modbus/slave.py:194-231 | inside a batch every call a spacing later makes the next one |
| `Reconnect.SuccessConnects` | novena_gateway/connectors/modbus/slave.py:194-231 | a successful attempt before the last of a batch connects, says so and starts the count again |
| `Reconnect.NoNeedlessAttempt` | novena_gateway/connectors/modbus/slave.py:194-231 | a connected or stopped slave makes no attempt |
| `Reconnect.LastAttemptReportsFailure` | novena_gateway/connectors/modbus/slave.py:194-231 | the result differs from the connection exactly when the last attempt of a batch succeeds |
| `Reconnect.CallKeepsBatches` | novena_gateway/connectors/modbus/slave.py:194-231 | a call makes at most one attempt and keeps batches a back-off apart |
| `Reconnect.AttemptsAreRateLimited` | novena_gateway/connectors/modbus/slave.py:194-231 | a window shorter than the back-off never holds more attempts than one batch, in every run against an unreachable master |
| `ConfigApply.StepMeans` | novena_gateway/gateway/remote_config_handler.py:259-413 | one request means what it does to a table of sections and connectors, keeps distinct names, and a rejected or rolled-back one leaves the file as it was |
| `ConfigApply.FileFollowsTheReference` | novena_gateway/gateway/remote_config_handler.py:259-413 | over any sequence of requests, whole lists, whole configurations and exceptions the file is what the requests whose new file stays leave in a table; the running configuration is the file's, and without exceptions so is the last-known-good copy |
| `ConfigApply.OneFailureRollsBack` | novena_gateway/gateway/remote_config_handler.py:347-413 | without an exception one connector that does not start rolls back file and running configuration, and otherwise both are the proposed one |
| `ConfigApply.FailedUpdateKeepsTheNewFile` | novena_gateway/gateway/remote_config_handler.py:186-249 | a failed update leaves the new file in place exactly when the exception came after it was written and before the previous one was put back; otherwise the previous file is there |
| `ConfigApply.RemoteConfigHandler.constructor` | novena_gateway/gateway/remote_config_handler.py:83-88 | file and running configuration agree; a last-known-good copy may be there already |
| `ConfigApply.RemoteConfigHandler.Find` | novena_gateway/gateway/remote_config_handler.py:274-280 | the first connector of a name |
| `ConfigApply.RemoteConfigHandler.ApplyWithRollback` | novena_gateway/gateway/remote_config_handler.py:207-413 | without an exception the new file stays exactly when every connector started; with one, exactly the actions in front of it have been carried out |
| `ConfigApply.RemoteConfigHandler.FullUpdate` | novena_gateway/gateway/remote_config_handler.py:250-257 | a valid configuration is applied as a whole |
| `ConfigApply.RemoteConfigHandler.ConnectorAdd` | novena_gateway/gateway/remote_config_handler.py:295-319 | refused for a missing or known name, else applied |
| `ConfigApply.RemoteConfigHandler.Drop` | novena_gateway/gateway/remote_config_handler.py:330-334 | all others, in order; nothing dropped exactly when the name is unknown |
| `ConfigApply.RemoteConfigHandler.ConnectorRemove` | novena_gateway/gateway/remote_config_handler.py:321-345 | refused for a missing or unknown name, else applied |
| `ConfigApply.RemoteConfigHandler.ConnectorUpdate` | novena_gateway/gateway/remote_config_handler.py:259-293 | a whole list replaces the connectors; by name the first connector of that name is replaced, else refused |

## Left out

- Ed25519, SHA-256, base64, JSON text and ISO time parsing: only their outcomes appear, as fields of the messages.
- Threads inside one call: each call, loop iteration or replay event is one step; for commands, lock, journal writes, handler call and terminal record are separate steps.
- The checks of `_on_rpc_request` before `validate`, diagnostic commands, `enforce_prerequisites` in detail and the response messages: they reject earlier or answer, and change no protocol state.
- A journal file damaged on disk between runs: file replacement is taken to be atomic, as `os.replace` is.
- CommandProtocol.DisciplinedDeliveriesExecuteOnce: runs contain no reset, because a reset forgets every command id on purpose.
- CommandProtocol.SerializedDeliveriesExecuteOnce: no reset either.
- Publisher.MessagesAreConserved: `publish_now`, `_flush_queue` and `disconnect` are best-effort paths outside the runs; an orderly stop counts as the end of the process.
- The SQLite event storage: only its abstract contract (`novena_gateway/storage/event_storage.py:24-36`) is used.
- Release.NoConnectorAfterRestart: activation and password rotation are outside its runs, since they make the gateway operational again.
- Release.AcknowledgementsAreBacked: activation is outside its runs; it removes the recorded request under other rules.
- LogDedup.SuppressedRecordsAreConserved: counts lines appended; the bounded buffer may push out old lines before a flush, which Flush states.
- LogDedup.RemoteLogHandler.Emit: the formatting of the message comes before it, and its case-folded form is a field of the record.
- LogDedup.RemoteLogHandler.Flush: a batch size of at least 1, as a range step of 0 is an error.
- ModbusRanges.ParseWideRange: a chunk limit below 1 on a range that is not empty is excluded, because the gateway's loop then never ends (NoProgressBelowOne).
- ModbusDecode.DecodeValidationValue: the raw integer; float types, scale, offset and the finiteness check are left out.
- Modbus coils, floats, strings, enums, scaling and dividers: they depend on library code or are one multiplication; the decode function of a wide read is a parameter.
- Redaction.EveryMarkerIsClosed: for texts whose lower-casing keeps positions, such as ASCII.
- Redaction.RedactionHidesExactly: the necessity is stated where no other marker occurs in the text; another one that reaches the same secret first can hide it.
- Watchdog.SwitchWinsTheRoute: the routes a check reads are those the profiles bring about, with a fixed automatic metric per interface; changes by others between checks are outside.
- ModbusRanges.ReadRanges: an answer with more registers than were asked for is excluded; section 6.3 of the MODBUS Application Protocol Specification V1.1b3 fixes their number.
- `redact_secrets` and `redact_diagnostics`: plain structural recursion.
- Reconnect.AttemptsAreRateLimited: for a positive clock and a master that stays disconnected; a successful connection starts the count again.
- ConfigApply.FileFollowsTheReference: backup files and changes to the configuration by other parts of the gateway are not part of the runs.
- Discovery scanning, preflight, OTA update, the other connectors, logging set-up and command-line entry points: input and output with little to prove.
