# Sheath: a verified model of its decisions

Sheath runs blades at several sites. A *centre* keeps the inventory and decides what each blade should do, a *site* server
near the blades caches the centre's document, answers DHCP and netboot and stands in for the centre while the line is
down, an *installer* on a netbooted blade asks what to do, and an *agent* on a running blade carries out commands.

This project models the parts where a wrong step is expensive, and proves what they promise over every run or every input:

| module | models |
|---|---|
| `Centre`, `Handlers` | the blade rows, the operations on them and the answer an installer gets |
| `CentreLaws`, `RowHistory` | what the operations mean for each field, and where every entry comes from, over whole runs |
| `Rollout`, `Coherence`, `OfflineJobs`, `ProbeOrder`, `RolloutExamples` | centre, sites, passes that interleave, restarts, outages; what a cached document is worth; what an answer given offline means; the ordering of a firmware reading |
| `Spool`, `RelayQueue` | reports that wait while the centre is away: queue, drains, disk file, crashes |
| `Fat16`, `FatLayout` | rewriting one file inside a boot image, in place; where things stand in such an image |
| `BootConfig`, `Text` | the managed block in a boot configuration |
| `Alerts` | announcing a bad blade, once, and its recovery |
| `AddressPlan`, `PlanLaws` | units, slots and addresses; the overlap checker |
| `Resume`, `ImageCache` | downloads that resume, and the site's verified images |
| `Reservations`, `ReservationText` | the DHCP reservation files, from the site and from the centre |
| `ConfigMerge`, `ConfigTree` | the layered configuration of a blade, and the merge in place |
| `JobQueue` | the single worker of the image queue |
| `Commands`, `CommandBatch` | commands: queued, handed out, ordered and run |
| `Latch`, `Seqs`, `Wrappers` | small shared facts |

Protocols are machines: a state, an event for every atomic step of every party, and a run as a list of events in any
order. History (what was ever requested, delivered, saved) is kept beside the state so that a theorem can speak about the
past. Code that changes things in place is a class or a loop proved equal to the function the theorems are about.

`dafny verify dfyconfig.toml` checks the whole project.

## Where the code differs from its comments

The model follows the code. Each of these is a lemma with a concrete run, or an exact condition.

- The relay tests the netboot flag, not a pending install (site/relay.go:145): a blade armed only for a firmware reading is
  told to install offline, and so is one whose "done" has not come back in a document yet
  (`FirmwareReadingInstallsOffline`, `FinishedBladeToldToInstallAgain`; the exact condition is `OfflineAnswerMeans`).
- A blade without an image is answered "waiting" by the centre whatever is armed; the relay hands out an erase to it and
  otherwise tells it "idle" (`OtherAnswersMean`, `RelayAnswerFromRows`; where they agree, `FreshRelayAgreesIff`).
- Two passes at once can pin an older document under a newer version (`OverlappingPassesPinAnOldDocument`; exactly when,
  `StoredCoherentIff`).
- That a site has fetched is not proof that it has the tag: the answer may be lost (`LostAnswerRestartsAnyway`).
- Computing a document and stamping its delivery are separate steps: an arming between them is taken for delivered
  (`ArmingDuringHandOutMissesTheTag`; exactly when, `TagCarriedIff`).
- The one-second writer can put an emptied queue on disk while a batch is under way (`TickDuringDrainLosesAReport`; the
  exact condition is `FreshSnapshotDurableIff`).
- A report that finds the line up overtakes the queue (`ForwardKeepsOrderIff`); `stageIP` does not bound its buffer.
- A warning that was announced, escalates and then clears is never taken back (`EscalationLosesTheRecovery`); the hold time
  counts from the whole second in which a stretch began; while a mail fails every pass logs the alert again
  (`FailingMailRepeatsTheLog`; exactly when, `AttemptedAgainIff`).
- A run removes only one managed block, and a wanted line that is the end marker makes the file grow
  with every run (`RemovalIdempotentIff`, `EndMarkerWantedGrowsTheFile`; exactly when a second run changes nothing,
  `SettlesIff`).
- `readFATFile` does not refuse a first cluster below 2 (`ReadCrashesIff`, `EmptyFileCrashesReading`).
- The allocator does not look at the pool and does not end on a step of zero with the base taken
  (`PoolIsMetIff`, `AllocatorEndsIff`); such a step can only come from the setting read at server/db.go:1360, since the API
  writes 20 for a step of zero and 100 for a base of zero (server/api.go:91-96); a step below the size of a unit shares addresses (`SharedAddressIff`).
- A failed reconnect always reads as a clean end of file, retries left or not (`EndIsShortIff`,
  `FailedReconnectLooksLikeTheEnd`).
- The stamp of an image is written before the image is renamed into place (`StampBeforeRenameIsSafeIff`,
  `OldBytesPassForNew`), and an image without a checksum keeps the stamp of the one before (`UnsummedFetchStampsIff`); a
  complete partial file cannot be resumed (`RangeFinishesIff`, `CompletePartIsStuck`); a wanted name that ends like a stamp
  or a partial file may be pruned (`WantedButPruned`; exactly when, `WantedSurvivesIff`).
- A command can be handed out up to a second after its time to live (`OutlivesItsTimeByLessThanASecond`) and twice to polls
  that overlap (`HandedOutAgainIff`), and the web form stacks commands of one kind (`TheFormStacks`; exactly when,
  `AskKeepsOneIff`).

## Model

| member | source | states |
|---|---|---|
| Centre.RowArmedStep | server/db.go:960-1239 | one operation on an existing row leaves a job armed exactly if it opens it, or it was armed and the operation does not close it |
| Centre.GreetingKeepsJobs | server/api.go:974-1060 | asking for a job neither arms nor disarms one, for any blade |
| Centre.ChoosingArms | server/netboot.go:421-440 | choosing an image in the netboot panel arms an install for the linked blade and nothing else |
| Centre.ArmedStep | server/db.go:960-1239 | the same for every event of the centre |
| Centre.ArmedIffStanding | server/db.go:960-1239 | over every run, a blade is armed for a job exactly when it was requested and since then neither finished, cancelled, reset nor replaced by the other job |
| Centre.GoMeansStandingRequest | server/api.go:974-1123 | in every run the centre answers "go" exactly when an install request stands and the blade has a catalogued image: the one assigned before the question, which stays, and else the one chosen for the session of its MAC; with that image |
| Centre.AskingKeepsTheAssignedImage | server/api.go:1020-1031 | asking never replaces an assigned image; a blade without one, or unknown, gets the one chosen for the session of its MAC, or none |
| Centre.EraseMeansStandingRequest | server/api.go:1032-1060 | in every run "wipe" is answered exactly while an erase stands and the row has an image, assigned before the question or chosen for the session |
| Centre.OtherAnswersMean | server/api.go:1032-1123 | in every run "waiting" exactly without an image, "idle" exactly with one and no job standing, and a refusal exactly for an install whose image is not in the catalogue |
| CentreLaws.AskingMeans | server/api.go:974-1123 | of the row of a blade that asks: place, details and job stay, a MAC is taken over only where there was none, hardware reported answers a reading, the state changes only when a job is handed out |
| CentreLaws.AskingLeavesTheRest | server/api.go:974-1031 | asking changes no other blade, and of the sessions only the link of its own |
| CentreLaws.ProvisioningIff | server/api.go:1050-1271 | over every run a blade counts as being provisioned exactly from the answer that hands it a job until its installer reports an end |
| CentreLaws.ChoosingMeans | server/netboot.go:421-440 | a choice is for the linked blade, without a link for the one found by that MAC, and for no other; the session keeps it |
| CentreLaws.ForgettingIff | server/db.go:1617-1670 | a blade is forgotten exactly if it stands nowhere, has no job waiting or in hand and is not online; its sessions go with it |
| CentreLaws.SweptBladeIff | server/db.go:1147-1188 | what a sweep makes of an armed blade: let go after half an hour, restarted if its site has taken a document in a later second or, none ever taken, after a minute, else left waiting |
| CentreLaws.NoReadingWaitsForEver | server/db.go:1147-1188 | half an hour after its arming a blade has been restarted or let go |
| CentreLaws.StampIsTheSecond | server/db.go:447-447 | a stamp is the whole second a moment lies in |
| RowHistory.FactIff | server/db.go:960-1239 | over every run, for each field of a blade (image, place, MAC, details, finished, reading, restarted, enrolled, online, offline, failed): it says so exactly if one of the listed events made it so and none that ends it came later |
| RowHistory.NoteIff | server/netboot.go:280-440 | the same for what a session offers and is linked to, for a site's settings and last document, and for the catalogue |
| Centre.StandingJobIsKept | server/db.go:1617-1670 | a blade with a standing job is never forgotten |
| Centre.StepKeepsClockAndSites | server/api.go:315-339 | only handing out a full document touches the time a site last took one, and the clock never runs back |
| Centre.ProbeOnlyByRequest | server/db.go:1093-1213 | a firmware reading is armed by an accepted request alone, stamped with its second |
| Handlers.CentreDb.RequestInstallOf | server/db.go:1218-1239 | the statements amount to one request event, and succeed exactly when it opens an install |
| Handlers.CentreDb.CancelInstallOf | server/db.go:1058-1070 | succeeds exactly when a job was armed; afterwards none is |
| Handlers.CentreDb.RequestProbeOf | server/db.go:1093-1116 | both updates together are one arming event, refused while a job is armed |
| Handlers.CentreDb.ProbeSweep | server/db.go:1147-1188 | one sweep, in any order of rows, leaves every blade as if looked at alone, and restarts exactly those due |
| Handlers.CentreDb.Greet | server/api.go:974-1031 | enrolling, answering a reading and linking the session, statement by statement, give the rows the decision is taken on |
| Handlers.CentreDb.ProvisionOf | server/api.go:974-1123 | the handler's rows and answer are those of the model, branch by branch |
| Handlers.SiteLoop.Fetch | site/site.go:200-230 | what each answer of the centre returns, and that only a whole document changes the version |
| Handlers.SiteLoop.Pass | site/site.go:150-198 | memory, version and file after a pass for every answer; coherence is kept; no document only if there never was one |
| Coherence.HeldIsOneWholePastDocument | server/api.go:206-295 | in every run, passes overlapping or not, every document a site holds, has on disk or has in transit is one whole document the centre computed at one past moment |
| Rollout.DocumentShows | server/api.go:206-277 | a document lists exactly the blades of its site, with the row's job, image and details, and the netboot flag exactly for an install, an erase or a reading not half an hour old |
| Rollout.DocumentShowsImage | server/api.go:258-268 | and exactly the catalogued images assigned to one of them |
| Coherence.SerialisedPassesStayInStep | site/site.go:150-230 | with one pass per site at a time, through restarts and outages, the held document's version is the version the site asks with |
| Coherence.CompletedPassIsCurrent | server/api.go:279-294 | a pass that was answered, "not modified" included, ends with the content the centre computed during that pass, unless two different contents have one hash |
| Coherence.VersionDeterminesHash | server/api.go:279-294 | equal versions mean equal hashes |
| Coherence.EtagIsLastFull | site/site.go:200-230 | in every run, passes overlapping or not, the version a site asks with is that of the last whole document any of its passes received since it started |
| Coherence.StoredCoherentIff | site/site.go:150-198 | in every run storing what a pass got leaves document and version in step exactly when the last whole document received has the version stored, or none was received |
| Coherence.StoredFullCoherentIff | site/site.go:150-198 | for a pass that got a whole document one was received, and the versions decide |
| Coherence.HeldIsLastStored | site/site.go:338-350 | in every run, once a pass has stored a document since the start, the site holds the one stored last; before that nothing, or what is on its disk |
| OfflineJobs.CentreFollowsTrace | server/api.go:315-339 | the centre inside a run of the whole system is the centre of its own run |
| OfflineJobs.PastIsTheRun | server/api.go:206-295 | the recorded past is the run |
| OfflineJobs.RelayAnswerFromRows | site/relay.go:114-182 | each of the relay's four answers in terms of the rows its document was computed from, both directions |
| OfflineJobs.HeldComesFrom | site/site.go:355-367 | the held document was computed by an event of the run from the centre's rows at that event |
| OfflineJobs.AnswerFitsRun | site/relay.go:114-182 | the same in terms of the requests standing in the centre's run, "idle" and "waiting" included |
| OfflineJobs.OfflineAnswerMeans | site/relay.go:114-182 | in every run "go" offline is given exactly when, as the document was computed, the blade stood here with a catalogued image and an install stood or, no erase standing, a firmware reading was armed; an erase exactly when one stood; "idle" exactly when it stood here with no erase and had no image or neither install nor reading; "waiting" otherwise |
| OfflineJobs.WaitForJob | installer/main.go:593-688 | the loop is left at the first answer that is a job and does that job, or before any at the first "idle", more than a minute after the first one, on a blade with a system on its disk |
| OfflineJobs.NothingRequestedIsIdle | site/relay.go:145-151 | in every run a blade that stood here with nothing requested of it is told "idle" |
| OfflineJobs.IdleRestarts | installer/main.go:637-664 | a blade with a system on its disk that hears nothing but "idle" for more than a minute restarts into it and does no job |
| OfflineJobs.FinishedBladeRestarts | installer/main.go:637-664 | so in every run such a blade, answered by its site all along, restarts into its system |
| OfflineJobs.FreshRelayAgreesIff | site/relay.go:114-182 | on the same rows relay and centre make the installer do the same exactly if the blade has an image and no firmware reading is armed on it without an install or an erase |
| ProbeOrder.AlwaysOrdered | server/db.go:1147-1188 | in every run stamps match the moments they were taken, and an arming stands from its request on |
| ProbeOrder.RestartInOrderedSystem | server/db.go:1147-1188 | a restart because of a fetch implies the tag was given |
| ProbeOrder.RestartComesAfterTheTag | server/db.go:1093-1213 | in every run, when the blade is restarted because its site has fetched, the last full document was given after the arming, and if computed after it carries the tag |
| ProbeOrder.AlwaysLast | server/db.go:1093-1116 | in every run the recorded arming is the last accepted one |
| ProbeOrder.TagCarriedIff | server/api.go:321-338 | in every run, at such a restart: the document was computed after the arming exactly if no arming of that blade was accepted between computing and giving it; then it carries the tag of a blade that stood there |
| RolloutExamples.FirstPass | site/site.go:150-198 | an undisturbed first pass brings exactly what the centre has, in memory and on disk |
| RolloutExamples.FirmwareReadingInstallsOffline | site/relay.go:145-160 | a run in which nobody asked for an install and the relay says "go" |
| RolloutExamples.FinishedBladeToldToInstallAgain | site/relay.go:253-273 | a run in which the centre has "done" and the relay says "go" again |
| RolloutExamples.ArmingDuringHandOutMissesTheTag | server/api.go:315-339 | a run in which the restart goes out and the site's document has no tag |
| RolloutExamples.LostAnswerRestartsAnyway | server/db.go:1138-1188 | a run in which the document with the tag is given and lost on the way, the blade is restarted, and its site holds nothing |
| RolloutExamples.OverlappingPassesPinAnOldDocument | site/relay.go:263-272 | a run after which "not modified" keeps the older document |
| Spool.ArrivalBoundsQueue | site/relay.go:326-347 | right after an arrival at most the limit waits, whatever was put back; below the limit nothing is dropped |
| Spool.ArrivalKeepsTheNewest | site/relay.go:334-341 | the new report comes last; at or above the limit exactly the newest half of the limit stays in front of it, in order |
| Spool.SendKeepsCount | site/relay.go:350-388 | a send, whatever its outcome, moves reports and neither loses nor copies one |
| Spool.NothingLostOrInvented | site/relay.go:319-388 | under every interleaving without a crash, accepted is delivered plus under way plus waiting plus dropped plus unsendable, report by report |
| Spool.NoDoubleDelivery | site/relay.go:350-388 | without a crash no report is delivered twice |
| Spool.QueueKeepsOrder | site/relay.go:350-388 | one drain at a time and nothing overflowed: delivered, then under way, then waiting is the arrival sequence |
| Spool.ForwardKeepsOrderIff | site/relay.go:319-325 | a report forwarded at once keeps the order exactly when nothing waits and nothing is under way |
| Spool.FreshSnapshotDurableIff | site/spool.go:66-81 | putting an up-to-date copy in the place of the file keeps what was saved exactly when every saved report under way also waits or is settled |
| Spool.CarefulRunsAreSafe | site/spool.go:40-94 | if copies are taken only with no batch under way and the newest is put in place, whatever arrives, is taken, sent or put back between the two, every report ever saved is on disk, is known in memory, or is settled |
| Spool.CrashLosesNothingSaved | site/main.go:158-186 | then a crash at any moment of any such run loses no saved report |
| Spool.RedeliveryOnlyRepeats | site/spool.go:83-94 | whatever the crashes, nothing is delivered that did not arrive |
| Spool.TickDuringDrainLosesAReport | site/main.go:161-165 | a run that loses a saved report because the file was written during a drain |
| RelayQueue.ReportQueue.Queue | site/relay.go:326-347 | the method is the machine's arrival step; refuses exactly what is too long |
| RelayQueue.ReportQueue.Drain | site/relay.go:350-388 | while others come in before every send, the drain is the machine's take, arrivals and sends, ending at the first report that cannot go with the rest put back in front; afterwards the file agrees |
| RelayQueue.DrainMeans | site/relay.go:350-388 | a drain whose line fails at the k-th report: those before it are delivered, or set aside if no request could be made of them, in order; it and the rest wait again in front of exactly what others brought in |
| RelayQueue.ReportQueue.WriteIfDirty | site/spool.go:66-81 | after a successful write file and queue agree; after a failed one it is still to be done |
| RelayQueue.EventBuffer.Note | site/site.go:234-244 | the oldest go when the buffer is full; at most the limit afterwards |
| RelayQueue.EventBuffer.Stage | site/site.go:251-258 | appends without a limit: stays within it exactly if there was room |
| RelayQueue.EventBuffer.Flush | site/site.go:263-299 | delivers the batch or puts it back before what came meanwhile |
| Fat16.OpenIsSound | site/fat.go:38-60 | every accepted image has its root directory before its data and its data inside the image |
| FatLayout.OpensAsLaidOut | site/fat.go:38-60 | every boot sector, tables, root and data of the lengths the sector declares, one behind the other, open with the root behind all the tables and the data behind the padded root, for any number of tables |
| FatLayout.FileIsRead | site/fat.go:161-183 | a file whose entry stands in that root and whose bytes stand in its cluster is read back |
| FatLayout.FileIsPatchedIff | site/fat.go:90-118 | and can be rewritten exactly if the new content fits one cluster and the whole cluster lies in the data |
| FatLayout.NotAnImage | site/fat.go:38-60 | too short, or a zero where the sector must declare something: refused |
| FatLayout.Fat83Bytes | site/fat.go:121-138 | the eleven bytes of a base and an extension, upper-cased and padded |
| Fat16.FindMeans | site/fat.go:63-85 | an entry is found exactly if it is the first live file of that name before the end of the directory |
| Fat16.Fat83TellsNames | site/fat.go:121-138 | names that fit the format have the same eleven bytes exactly if they are the same but for case |
| Fat16.Target | site/fat.go:90-108 | an entry that is not refused has a cluster inside the image large enough for the content |
| Fat16.PatchFrame | site/fat.go:90-118 | only the entry's four length bytes and its one cluster change |
| Fat16.PatchKeepsGeometry | site/fat.go:38-60 | a patch leaves the parsed geometry as it was |
| Fat16.FindKept | site/fat.go:63-85 | every name is found where it was before the patch |
| Fat16.PatchedImage | site/fat.go:90-118 | for every string of bytes a successful patch keeps length and geometry, reads back exactly the content and changes only the entry's length bytes and its one cluster |
| Fat16.OtherFilesUntouched | site/fat.go:161-183 | after a successful patch every other file with a first cluster of its own reads as before, and a missing one is still missing |
| Fat16.SomeImageIsPatched | site/fat.go:90-118 | an image whose file is replaced, so the theorems apply to something |
| Fat16.ReadCrashesIff | site/fat.go:161-183 | reading stops the program exactly when the entry's cluster begins before the image |
| Fat16.EmptyFileCrashesReading | site/fat.go:175-182 | an accepted image with an empty file whose reading crashes |
| Fat16.Image.constructor | site/fat.go:38-60 | opening an accepted image gives sound geometry |
| Fat16.Image.Find | site/fat.go:63-85 | the method finds the entry the specification finds |
| Fat16.Image.Scan | site/fat.go:63-85 | so does its loop over the directory |
| Fat16.Image.WriteCluster | site/fat.go:109-115 | the cluster holds the content and then zeros, the rest is unchanged |
| Fat16.Image.WriteLength | site/fat.go:116-117 | four little-endian bytes and nothing else |
| Fat16.Image.Locate | site/fat.go:90-108 | where replace will write, or the reason it refuses |
| Fat16.Image.ReplaceFile | site/fat.go:90-118 | the bytes in place are those of the specification; a refusal changes nothing |
| Fat16.PatchCmdline | site/fat.go:141-158 | on success the file reads as the line with one newline, on failure nothing changed |
| BootConfig.MarkersUsable | agent/apply.go:451-454 | the program's markers are fit for substring search |
| BootConfig.MissingMeans | agent/apply.go:529-549 | a line goes into the block exactly if it is wanted and is a header or not set elsewhere |
| BootConfig.HeadersAlone | agent/apply.go:529-603 | section headers, comments and blanks wanted go into the block whatever the file sets, but headers and blanks alone make no block |
| BootConfig.StripRewritten | agent/apply.go:605-623 | stripping what was just written gives back the rest |
| BootConfig.RewrittenKeepsRest | agent/apply.go:617-623 | a rewritten file has the same text and the same settings outside its block |
| BootConfig.ApplyIsIdempotent | agent/apply.go:517-576 | for every file with at most one block and every list whose lines for the block are free of the end marker, applying twice is applying once |
| BootConfig.EndFreeListIsIdempotent | agent/apply.go:517-576 | so for every list free of the end marker, with the text outside kept |
| BootConfig.ApplyIdempotentIff | agent/apply.go:517-576 | with lines free of the start marker that condition is exact: a second run changes nothing if and only if no line that goes into the block contains the end marker |
| BootConfig.OutsideSurvives | agent/apply.go:605-623 | what stands outside survives in order, up to trailing newlines |
| BootConfig.EverySettingPresent | agent/apply.go:517-576 | every wanted setting is in the file afterwards, whatever the file was |
| BootConfig.RemovalIdempotentIff | agent/apply.go:605-615 | removing twice is removing once exactly when there is at most one block |
| BootConfig.SettlesIff | agent/apply.go:517-576 | for every file and every list free of the start marker a second run changes nothing if and only if: with at most one block, no line for the block contains the end marker; with more, everything wanted stands outside the first block and the file without it ends in a block of just the lines missing elsewhere |
| BootConfig.TwoBlocksCanSettle | agent/apply.go:517-576 | a file of the second kind |
| BootConfig.MarkersDistinctive | agent/apply.go:451-454 | the program's markers are fit for that |
| BootConfig.EndMarkerWantedGrowsTheFile | agent/apply.go:517-576 | with the end marker wanted as a line, from the first run on every run makes the file longer by the marker and three newlines |
| BootConfig.HasLineLoop | agent/apply.go:580-592 | the loop finds a setting exactly if some line sets it |
| BootConfig.OnlySectionsLoop | agent/apply.go:595-603 | the loop answers whether there is nothing but headers and blanks |
| BootConfig.MissingLoop | agent/apply.go:539-545 | the loop collects exactly the missing lines, in order |
| BootConfig.ApplyBlockTo | agent/apply.go:517-576 | the file written is the specified one, unreadable exactly if absent and not to be created, and a second run reports no change under exactly that condition |
| Alerts.RowDatesFromStretch | server/notify.go:110-169 | an open alert dates from the first pass of the unbroken stretch it is in |
| Alerts.AnnouncedOnlyAfterHold | server/notify.go:143-161 | over every run a level is marked announced only after an unbroken stretch of it as long as the hold time |
| Alerts.MarkLasts | server/notify.go:143-161 | as long as the stretch lasts the mark stays |
| Alerts.MarkedOncePerStretch | server/notify.go:178-203 | between two passes that mark a level announced the stretch was broken |
| Alerts.AttemptedAgainIff | server/notify.go:156-203 | within an unbroken stretch, once due, a later pass tries and logs again exactly if no pass before it marked |
| Alerts.MarksIff | server/notify.go:187-203 | an attempt marks exactly unless a mail is called for and fails; none is called for by a warning when only critical alerts are mailed |
| Alerts.MarkedByMailIff | server/notify.go:187-203 | over every run with mail set up: a critical level is marked only by a mail that went out, a warning too unless only critical alerts are mailed |
| Alerts.WorseMeans | server/notify.go:171-174 | which levels outrank what was said |
| Alerts.RowDatesFromItsStart | server/notify.go:110-142 | the row dates from the earliest pass of its unbroken stretch |
| Alerts.LastSaidIff | server/notify.go:143-203 | over every run the level noted as announced is the last one marked, unless the alert ended or escalated since |
| Alerts.DueIff | server/notify.go:143-161 | over every run a level is due exactly if its stretch is as old as the hold time and it is not the level last said |
| Alerts.SaidIff | server/notify.go:110-169 | the log gains exactly a recovery for each blade well again after an announcement and each level that is due, mail or no mail |
| Alerts.FailingMailRepeatsTheLog | server/notify.go:181-193 | a stretch in which the mail fails and every pass logs the alert |
| Alerts.RecoverySaidIff | server/notify.go:128-153 | a recovery is said exactly when an announcement made since the alert opened still stands, no escalation after it |
| Alerts.EscalationLosesTheRecovery | server/notify.go:133-152 | a run in which an announced warning clears and nobody is told |
| Alerts.Watch.SendAlert | server/notify.go:178-203 | logged always; marked unless mail is set up, called for by the level and the setting, and failed |
| Alerts.Watch.Judge | server/notify.go:110-165 | one blade's row and log after its turn, all other rows unchanged |
| Alerts.Watch.HealthPass | server/notify.go:110-169 | every blade takes its turn exactly once and no alert of a missing blade is left |
| AddressPlan.AllocatorEndsIff | server/db.go:846-867 | the search for a block ends exactly unless the step is zero and the base is taken |
| AddressPlan.NextRackOffset | server/db.go:846-867 | the first free block of the site's grid, or none below the limit |
| AddressPlan.NextIsUnique | server/db.go:846-867 | there is only one such answer |
| AddressPlan.RacksStep | server/db.go:846-936 | every automatic operation keeps blocks on the grid and apart |
| AddressPlan.BladesStep | server/ipam.go:142-206 | every operation keeps slots inside their unit and one blade in a slot |
| AddressPlan.PlanAlwaysFits | server/db.go:846-948 | every run, with sites of any base and step and offsets from the allocator, keeps blocks on the grid of their site and apart, slots inside their unit and one blade in a slot |
| AddressPlan.NoSharedAddress | server/db.go:1486-1502 | in every run two blades of a site share an address only if its blocks can overlap; with a step of at least 20 none do and no host number exceeds 250 |
| AddressPlan.Host | server/db.go:1486-1502 | a blade that has a number has one of its unit's span |
| AddressPlan.EveryNumberHasItsSlot | server/db.go:1486-1502 | every number of a unit's span is that of exactly one valid slot |
| AddressPlan.SlotsInOrder | server/db.go:1486-1502 | and higher slots have higher numbers, one by one |
| AddressPlan.GridStays | server/db.go:680-706 | updating a site writes its pool and leaves base and step alone, and no other operation changes them |
| AddressPlan.FillReaches | server/db.go:846-867 | every block that fits below the limit is handed out by some run |
| AddressPlan.SharedAddressIff | server/db.go:846-867 | some run gives two blades of a site with this base and step one address if and only if the step, up or down, is below 20 and two blocks fit below the limit |
| AddressPlan.CheckSite | server/ipam.go:567-605 | warns of exactly what is wrong: each span past 254, each that meets the pool, each two that overlap; silent exactly if none |
| AddressPlan.TestsMean | server/ipam.go:567-605 | the interval tests mean that no host number is past 254, in the pool or in two units |
| AddressPlan.SilenceMakesHostsUnique | server/ipam.go:48-53 | then unit and slot determine the host number one to one, outside the pool |
| AddressPlan.SilenceMeansAddressesAreApart | server/ipam.go:567-605 | in every fitting plan, where the check is silent on the units of a site no blade's number there is past 254, in the pool or another blade's |
| AddressPlan.UnitsHaveKnownSizes | server/db.go:870-875 | in every run every unit has one of the four sizes |
| AddressPlan.UpdatingMeans | server/api.go:604-707 | what an update sends replaces unit and slot, zero clears, and what is not sent stays |
| PlanLaws.FactIff | server/db.go:653-948 | over every run, for each entry of the plan (blade known, its unit, its slot, a unit's site, block and size, a site's grid and pool): it says so exactly if an accepted operation made it so and none since has ended it; acceptance is spelled out |
| PlanLaws.ASiteRemains | server/db.go:708-729 | once there is a site every run keeps one |
| AddressPlan.PoolIsMetIff | server/db.go:861-865 | some run puts a unit into its site's pool if and only if a block of the grid that fits below the limit meets the pool |
| AddressPlan.DefaultSiteMeetsItsPool | server/ui.go:573-582 | the site created from the form is such a site |
| AddressPlan.PlanDb.CreateRackAt | server/ui.go:706-752 | the handler is the automatic operation and keeps the plan; the new unit stands at the site with the size and the first free block |
| AddressPlan.PlanDb.MoveRackTo | server/db.go:885-906 | likewise for moving a unit, which keeps its size |
| AddressPlan.PlanDb.MaxOccupiedSlot | server/db.go:938-948 | the highest occupied slot, attained unless none is occupied |
| AddressPlan.PlanDb.ResizeRackTo | server/db.go:907-936 | likewise for resizing, which never cuts off a blade and leaves the block where it is |
| AddressPlan.PlanDb.PlaceBlade | server/ipam.go:153-206 | likewise for placing; a placed blade has the number of its unit's block plus its slot, within the limit where the step is at least 20 |
| Resume.ReadIsFaithful | installer/main.go:1022-1063 | one read, whatever the line does, hands on the next bytes of the source; a failed reconnect ends it as an end, however many retries are left |
| Resume.DownloadIsAPrefix | installer/main.go:972-1063 | over every pattern of drops, empty reads and failed reconnects the bytes handed on are the first bytes of the source |
| Resume.EndIsShortIff | installer/main.go:1022-1063 | over every download an end with bytes missing is reported if and only if a reconnect failed before the last byte; and a failed reconnect always ends it so, with exactly the bytes before it |
| Resume.BreakMeans | installer/main.go:1003-1063 | at a break the download goes on from the same offset exactly if the new request is answered by the whole file at the beginning and by a part later; otherwise it ends there |
| Resume.BytesRestoreRetries | installer/main.go:1022-1063 | every byte gives the full number of retries back |
| Resume.WholeAnswerEndsIt | installer/main.go:1009-1013 | a server that answers with the whole file in the middle ends the download, and nothing is handed on twice |
| Resume.SixtyReconnects | installer/main.go:1022-1063 | a line that only breaks and comes back is given up after sixty reconnects |
| Resume.HundredEmptyReads | installer/main.go:1022-1063 | a hundred empty reads are waited out |
| Resume.OneEmptyReadTooMany | installer/main.go:1022-1063 | one more is not |
| Resume.FailedReconnectLooksLikeTheEnd | installer/main.go:1057-1060 | a refused reconnect is reported as a clean end with bytes missing |
| Resume.ResumingReader.ReadSome | installer/main.go:1022-1063 | the retry loop is the specified read; it always ends |
| ImageCache.HaveIsSound | site/images.go:90-111 | "ready" from a look at the disk means the catalogue's checksum, and stamps stay true |
| ImageCache.WantedIsKeptIff | site/images.go:90-111 | an image is ready without a fetch exactly if it is there with the declared size, if any, and the checksum |
| ImageCache.FoldsCaseOnly | site/images.go:104-108 | checksums are compared up to the case of letters and nothing else |
| ImageCache.FetchIsSound | site/images.go:113-171 | "ready" after a fetch means the catalogue's checksum and stamps stay true, whatever lay in the partial file and whatever the server sent |
| ImageCache.CorruptPartStartsOver | site/images.go:157-167 | a complete download that does not add up is thrown away, and nothing else is touched |
| ImageCache.SecondFetchHeals | site/images.go:113-171 | so the next fetch, answered honestly, brings the image, whatever lay in the partial file |
| ImageCache.FetchKeepsPrefix | site/images.go:113-171 | over an unchanged source served honestly the partial file stays its beginning, and a fetch that succeeds brings the source |
| ImageCache.UnsummedFetchStampsIff | site/images.go:157-170 | without a checksum the stamps stay true exactly if there was none beside the file or it names the bytes copied |
| ImageCache.StaleStampLeftBehind | site/images.go:157-170 | a directory and an answer after which the stamp is the old image's |
| ImageCache.StampBeforeRenameIsSafeIff | site/images.go:168-170 | losing power between stamp and rename leaves a true stamp exactly if there was no older file with another checksum |
| ImageCache.OldBytesPassForNew | site/images.go:168-170 | otherwise the old bytes pass for the new image |
| ImageCache.RangeFinishesIff | site/images.go:113-171 | some range answer of an honest server finishes a partial file if and only if part of the source is there and part is missing |
| ImageCache.CompletePartIsStuck | site/images.go:113-153 | a whole transfer that breaks after its last byte leaves a complete partial file, from any directory, and then every honest answer but the whole file again fails and changes nothing |
| ImageCache.WantedSurvivesIff | site/images.go:465-497 | for every wanted name: the partial file stays; the stamp goes if and only if the name ends in .part and the rest is an unwanted image's name; the image goes if and only if its name ends like a stamp's or partial file's and the rest is an unwanted image's; what stays is unchanged |
| ImageCache.PruningSparesWanted | site/images.go:465-497 | so a wanted image with any other name keeps all three, with their contents |
| ImageCache.PruningKeepsInvariant | site/images.go:465-497 | and keeps stamps true and partial files prefixes |
| ImageCache.WantedButPruned | site/images.go:478-481 | a wanted name that ends in .part is removed |
| ImageCache.EnsureOneIsSound | site/images.go:40-83 | one image's turn touches only its own files and keeps stamps true, for any partial file and any answer |
| ImageCache.PassIsSound | site/images.go:22-85 | after a whole pass, for any partial files and any answers, every image reported ready has the catalogue's checksum, whatever was fetched later |
| ImageCache.ReadyMeansChecksum | site/images.go:22-85 | and still has it after pruning |
| ImageCache.StampsAlwaysTrue | site/images.go:22-171 | through every crash-free run of passes, catalogues, sources and servers changing at will, stamps name their file's checksum |
| ImageCache.PartsAlwaysBegin | site/images.go:113-171 | while the sources stay what they are and are served honestly, every partial file is the beginning of its source |
| ImageCache.ReadyInEveryRun | site/images.go:22-171 | in every such run what a pass reports ready has the checksum of that pass's catalogue |
| ImageCache.Store.HaveImage | site/images.go:90-111 | the method is the specified look, writes of the stamp included |
| ImageCache.Store.FetchImage | site/images.go:113-171 | the method leaves the files of the specified fetch for every answer |
| ImageCache.Store.PruneImages | site/images.go:465-497 | in any order of the directory exactly the leftover images go |
| ImageCache.Store.EnsureImages | site/images.go:22-85 | what is reported and what is on disk after the loop and the pruning |
| Reservations.WritingWrites | site/dhcp.go:31-71 | every record is in place, other files unchanged, and nothing is written exactly if all were in place |
| Reservations.ReconciledMeans | site/dhcp.go:24-105 | the blade files are exactly the records and every other file is as it was |
| Reservations.ForeignFileStaysIff | site/dhcp.go:73-88 | a file that is no record goes exactly if its name is that of a blade's file |
| ReservationText.FieldsOfHostLine | site/dhcp.go:52-57 | the line's fields: hardware address, the netboot tag if armed, name, address, lease |
| ReservationText.MacMeans | server/ipam.go:122-124 | a made-up hardware address holds the low bytes of site, unit and slot |
| ReservationText.NamesTellPlaces | server/ipam.go:134-139 | made-up names are the same exactly for the same unit and slot |
| ReservationText.NameBegins | server/ipam.go:134-139 | they begin with the site's prefix and the unit's number |
| ReservationText.EntryMeans | server/api.go:220-257 | an address or name given stays, only a missing one is made up; the netboot flag exactly for an install, an erase or a reading |
| Reservations.InStepIsUnique | site/dhcp.go:24-105 | only one directory satisfies that |
| Reservations.QuietIff | site/dhcp.go:92-94 | nothing is written, removed or reloaded exactly when the directory is already so |
| Reservations.SecondRunIsQuiet | site/dhcp.go:24-105 | a second run does nothing |
| Reservations.FileNameMeans | site/dhcp.go:39-40 | serials and file names correspond one to one, and every one is a blade file |
| Reservations.SiteLine | site/dhcp.go:42-57 | the active lines of the site's file: what a newline in the unit's name brings along, and the reservation |
| Reservations.CentreLine | server/ipam.go:315-341 | the same lines for the centre's file |
| Reservations.OneLineThatCountsIff | site/dhcp.go:52-57 | there is one active line if and only if the unit's name has no newline, or every further line of it is blank or a comment and the last a comment |
| Reservations.DocumentMembers | server/api.go:220-257 | the document lists exactly the placed blades of the site |
| Reservations.DocumentHasDistinctSerials | server/api.go:220-257 | in any order, with distinct serials |
| Reservations.SiteAndCentreAgree | server/ipam.go:256-378 | from one inventory at one instant site and centre have files for the same blades with the same active lines, whatever the units are called |
| Reservations.HostsDir.RemoveOrphans | site/dhcp.go:73-88 | removes exactly the blade files nobody wants |
| Reservations.HostsDir.WriteReservations | site/dhcp.go:24-105 | the directory is the reconciled one; a reload exactly if something changed; a dry run changes nothing |
| Reservations.HostsDir.WriteServed | server/ipam.go:286-352 | writes for every served blade up to the first that has no valid reservation |
| Reservations.HostsDir.SyncDhcp | server/ipam.go:256-378 | stops at exactly the first blade it cannot write for, removing nothing; otherwise the directory is the reconciled one |
| ConfigTree.MergeInto | server/api.go:1374-1388 | in place on maps that are objects, for any order of keys: the destination holds the right-biased deep merge, the source is unchanged, and the two share no map; it ends |
| ConfigTree.MergeKey | server/api.go:1375-1386 | one key: merged below, copied or set, the others untouched |
| ConfigTree.PutNew | server/api.go:1381-1386 | setting a key keeps the maps a tree and changes that key alone |
| ConfigMerge.MergeIntoEmpty | server/api.go:1381-1383 | merging into nothing copies |
| ConfigMerge.MergeIsIdempotent | server/api.go:1374-1388 | merging a layer again changes nothing |
| ConfigMerge.LeavesOfMerge | server/api.go:1374-1388 | the values are exactly the later layer's, and the earlier one's at paths the later neither sets nor shadows |
| ConfigMerge.GroupingMattersIff | server/api.go:1374-1388 | the grouping of three layers matters exactly at a value of the lowest that the middle one overrides and the upper two, merged, do not |
| ConfigMerge.MergeIsNotAssociative | server/api.go:1374-1388 | three layers whose grouping matters |
| ConfigMerge.OrderedArrangementIsUnique | server/api.go:1393-1394 | a list of names has one sorted arrangement |
| ConfigMerge.SortedArrangement | server/api.go:1394-1394 | sorting gives it |
| ConfigTree.MergeGroups | server/api.go:1395-1397 | the loop stacks the group layers in order |
| ConfigTree.MergedConfig | server/api.go:1390-1415 | the result is a tree of new maps holding all layers stacked, with what follows from the position on top |
| ConfigMerge.PositionWins | server/api.go:1403-1411 | what follows from the position is in effect under its keys whatever the layers say, and every other key is as the layers have it |
| ConfigMerge.AtMostIff | server/api.go:1393-1394 | the order names are sorted in |
| ConfigMerge.GroupOrderIsIrrelevant | server/api.go:1393-1397 | the layers do not depend on the order the groups are listed in |
| ConfigMerge.EffectiveValue | server/api.go:1390-1398 | a value is in effect exactly when some layer sets it and no later layer sets or shadows its path |
| JobQueue.StepKeepsInv | server/images.go:53-77 | every step of an enqueuer or a runner keeps the invariant |
| JobQueue.OneWorkerInOrder | server/images.go:44-77 | in every interleaving at most one runner lives, waiting jobs have one, and jobs are worked once each in order |
| JobQueue.EveryJobCanFinish | server/images.go:64-77 | from every reachable state the runner, left alone, finishes every job ever enqueued |
| JobQueue.ImageQueue.Enqueue | server/images.go:53-62 | the critical section is the machine's arrival, starting a runner exactly when it says so |
| JobQueue.ImageQueue.Next | server/images.go:64-77 | the critical section is the machine's take: the job in front, or the end of the runner |
| Commands.DueIdsExact | server/api.go:938-962 | a poll selects exactly the waiting commands of the blade, in order |
| Commands.StepKeepsInv | server/api.go:920-967 | what was handed out and still waits is held by a poll that has yet to mark it |
| Commands.HandedOutAgainIff | server/api.go:938-965 | in every run, polls overlapping or not, a poll hands a command out again exactly if it is still living and another poll of the blade has selected and not marked it |
| Commands.HandedOutAtMostOnce | server/api.go:920-967 | with the polls of a blade in turn no command is handed out twice in any run |
| Commands.OverlappingPollsHandOutTwice | server/api.go:938-965 | a run of two polls at once in which one command goes out twice |
| Commands.SelectHandsOutTheLiving | server/api.go:927-966 | a poll hands out exactly the waiting commands not expired by the second; the other waiting ones expire |
| Commands.FateIff | server/api.go:782-967 | over every run a command was replaced, withdrawn, has expired or was taken exactly if an event settled it so, and a poll's mark overrides the others |
| Commands.WithdrawMeans | server/db.go:1017-1018 | withdrawing takes exactly the waiting commands of the blade, of one kind or all |
| Commands.OutlivesItsTimeByLessThanASecond | server/api.go:928-931 | a run that hands a command out within the second after its time to live |
| Commands.AskKeepsOneIff | server/api.go:782-791 | from a table with at most one waiting command of a kind, a request keeps it so if and only if it replaces or none of that kind waits for the blade |
| Commands.AskingTwiceWaitsOnce | server/api.go:782-791 | so while every request replaces, at most one command of a kind waits for a blade |
| Commands.TheFormStacks | server/ui.go:1206-1207 | the web form lets two of a kind wait |
| Commands.CommandTable.QueueCommand | server/api.go:782-791 | the two statements are one replacing request |
| Commands.CommandTable.MarkTaken | server/api.go:963-965 | marking one by one marks exactly the batch, whatever has become of its rows |
| Commands.CommandTable.SelectBatch | server/api.go:927-962 | expiring and selecting are the machine's step: rows and batch |
| Commands.SelectDue | server/api.go:953-962 | the loop collects the batch |
| CommandBatch.KindsAreThoseNotStale | agent/main.go:418-432 | the kinds kept are exactly those with a command that is not stale, each once |
| CommandBatch.SortIsStable | agent/main.go:433-436 | the sort arranges the same kinds by rank and keeps equals in order |
| CommandBatch.Collect | agent/main.go:418-432 | the loop leaves the kinds in order of appearance and the newest command of each |
| CommandBatch.RunCommands | agent/main.go:413-439 | what is considered: the newest of each kind, arranged by rank |
| CommandBatch.OnePerKindTheNewest | agent/main.go:418-439 | exactly one command per kind that is not stale, and it is the newest |
| CommandBatch.ShutdownIsLast | agent/main.go:505-519 | ranks never fall: nothing follows a shutdown and only a shutdown follows a reboot |
| CommandBatch.SignsFirst | agent/main.go:505-519 | signs on the blade come first, an installation before a restart or a shutdown, everything else between |
| CommandBatch.StaleAfterAQuarter | agent/main.go:400-411 | a command is skipped exactly when more than a quarter of an hour old, and never for want of a stamp |

## Left out

- HTTP, JSON, SQLite, SMTP, systemctl, mounts and decompression: each is an atomic step, an outcome or a parameter.
- One handler is one step of the centre; interleavings inside a handler are modelled for the hand-out of a document, the
  polls for commands, the queues and the spool.
- The checksum of a document and of an image is a parameter; a collision is an explicit hypothesis.
- The fields of a blade's document that no decision reads (addresses, token, configuration) are one opaque string.
- The netboot stage (`raiseStage`, `resetStage`) and log tailing.
- Relay rewriting of addresses (`aimHere`, `aimBinariesHere`) and token checks.
- Temporary files of the spool: a write of the file succeeds whole or not at all.
- Failing reads and writes of images, reservations and boot configuration beyond the branches modelled.
- Fat83: upper-cases ASCII letters only.
- MergeInto: a list is a leaf here. In the source a list that holds maps is assigned by reference (server/api.go:1386), so
  that "shares no map" is not claimed of maps inside lists.
- SiteAndCentreAgree: serial numbers are taken to have no newline.
- SyncDhcp: the validator is a parameter, and so is that of the site; the list of names removed is a set.
- DocumentMembers: the sort of the document by address is modelled as any rearrangement.
- Forgetting a blade deletes its commands; the table here only grows.
- RunCommands: ends where commands are carried out; what the agent's policy refuses is not modelled.
- EnsureImages: its guarantees are for names that are not those of stamps or partial files, and one checksum for one name; the
  states shown while a fetch is under way are not modelled.
- WaitForJob: the pauses between questions and what is printed.
- Read: the wait between reconnects and the cancelling context.
- Units at an offset given by hand (the `ip_offset` of the API), which bypass the allocator.
- User interface, accounts, sessions, enrolment, hardware collection, seeding, boot order, partition tables, policies and
  backups.
