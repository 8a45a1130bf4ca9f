# MarlinSpike: verified models

Dafny models of the parts of MarlinSpike whose correctness spans several functions or a whole run, with
proofs of what they promise. `dafny verify dfyconfig.toml` checks all of it.

| file | models |
|---|---|
| `RunStore.dfy`, `Recovery.dfy`, `RecoveryProtocol.dfy`, `RecoveryGrants.dfy`, `RunOutcomes.dfy` | the durable scan row, one reaper pass, and the protocol of any number of reapers, live finalizers and watchers over one row |
| `ScanSlots.dfy` | the in-memory run registry and its concurrency limit |
| `Bytes.dfy`, `PcapClassic.dfy`, `PcapNg.dfy` | the capture header reader, against the two file formats written as serialisers |
| `Timeline.dfy` | adaptive timeline buckets |
| `Rollup.dfy`, `Aggregate.dfy`, `Assets.dfy` | the project roll-up of findings and assets over reports |
| `JsonMerge.dfy`, `ChunkMerge.dfy` | merging the conversations of capture chunks |
| `Baselines.dfy`, `AssetProfile.dfy` | the longitudinal profile of one asset, and what it says in the reports' own fields |
| `ProjectAudit.dfy` | the vulnerability life cycle over scans |
| `Scheduler.dfy` | daily capture slots |
| `TicketLedger.dfy`, `TicketWorkers.dfy` | ticket deliveries with a deduplication ledger, one at a time and interleaved |
| `Lockout.dfy` | failed logins and the lockout clock |
| `Enrich.dfy` | merging plugin sidecars into a report |

How to read it. Code that changes state step by step is a class or a method with loops, and its `ensures` ties
the new state to a function of the old one. The promises are lemmas about that function: a fold is proved
equal to a declarative reading of all its inputs, a reader to invert a serialiser, a protocol step to keep an
invariant over every event sequence. Nothing bounds the number of reports, rows, actors, blocks or ticks.

Where the code and its comments or documentation differ, the model follows the code:

- `mark_finalizing` overwrites a claimed row (`marlinspike/run_store.py:224`), so two reapers can finish one run.
  A second claim or reclaim succeeds exactly when it is a committed, past-deadline reclaim of a row whose claim a
  mark overwrote (`SecondGrantExactly`), and the grants of a launch finish, hold or give up the row twice exactly when
  such a step has occurred since that launch (`FinishedTwiceExactly`). `NoDuplicateReconciliation` counts the
  grants, `TwoReapersFinishOneRun` is such a run.
- `record_start` resets a row that recovery still owns (`marlinspike/run_store.py:66-84`; the gateway reuses a run id for
  every rotation, `marlinspike/fleet/gateway/scan.py:93-123`), so a commit decided for one launch can land on the next.
  `FinishedOnceUnless` says exactly when a launch is finished twice, such commits included; `StaleCommitHappens` is a
  run with no mark at all.
- `update_pid` does not look at the status, and a failing recovery commit overwrites a completed run.
  `SettledUnlessPidReported` and `CompletedUnlessFailureCommits` say exactly when; `SettledRegainsPid` and
  `CompletedRunOverwritten` are runs.
- The 4096-byte option cap is called benign (`marlinspike/_pcap_header.py:247-251`). A resolution option whose
  header ends at the cap makes the reader raise an index error. `ScanRaisesExactly` and `NgRoundTrip` say exactly
  when, `OversizedInterfaceRaises` is a well-formed section that does it. When it does not raise, a resolution
  option behind the cap is ignored: `CappedInterfaceIsRead` says exactly when that gives the wrong unit,
  `CappedResolutionIsIgnored` that it does.
- Obsolete Packet Blocks are never counted: 12 of their bytes are read (line 256) and 20 required (line 329).
  `ObsoletePacketsNeverCount` states it.
- An advisory-only vulnerability is never reopened (`marlinspike/project_audit.py:123`), so a snapshot's active
  count can differ from the tracker's. `SnapshotAgreesUnlessAdvisoryReturns` says exactly when.
- A vulnerability key joins id and address with a bar (`marlinspike/project_audit.py:63`), which tells vulnerabilities
  apart as long as addresses have none: `KeysTellApart`, with `BarsConfuse`.
- `load_report_with_extensions` is documented as idempotent. It is exactly when no extension of another program
  in the report yields a finding: `LoadIsIdempotent`, with `ForeignFindingRepeats` as the counterexample.
- Nothing stops two findings of one delivery from sharing a deduplication key, and a lost ledger write opens a
  second ticket. A run keeps one ticket per key exactly when no delivery opens a key twice or one that has a
  ticket (`UniqueExactlyWhenNoneOpensAgain`); with every call succeeding a delivery does so exactly when keys
  differ and none lost its write (`UniqueExactlyWhenKeysDiffer`). `DuplicateInOneDelivery` and
  `LostWriteOpensAgain` are the counterexamples. Nor do two workers exclude each other between reading the
  ledger and recording: `UniqueExactlyWhenNoneRaces` gives the condition over every interleaving,
  `TwoWorkersOpenTwice` the counterexample.
- A slot nearer to midnight than the tick gap can be missed for good, and so can any slot when ticks are further apart
  than its grace window: `AlwaysFiresExactly`, from `EverySlotFires` and `SlotCanBeMissed`.
- The captures of a slot start before its stamp is committed (`marlinspike/scheduler.py:101-119`), so an exception in
  between starts them again at the next tick: `TriggersAgainExactly` and `TriggersOnceExactly`, with
  `SlotStartsTwice` as the run.
- The nested merge is said not to drop values. It drops an existing value that is no dictionary
  (`marlinspike/app.py:1063-1064`), and exactly dictionaries and blanks lose nothing: `MergeKeeps`.
- `in_reports` and `reports_with_event` in the asset profile count findings and events (`marlinspike/baselines.py:422`,
  `487`), though the tests read the former as a number of reports (`tests/test_baselines.py:341`). They are that number
  exactly when no report mentions the name twice: `TimesAreReports`, with `TwoFindingsOneReport`. A peer's
  `report_count` counts file names (line 352), which is the number of reports exactly when these differ:
  `PeerReportCount`, with `OneFileTwoReports`.

## Model

| member | source | states |
|---|---|---|
| RunStore.ScanHistory.RecordStart | marlinspike/run_store.py:28-86 | a launch writes a running row that can be claimed, with a deadline only for a positive timeout, and touches no other row |
| RunStore.ScanHistory.UpdatePid | marlinspike/run_store.py:89-104 | the engine pid changes whatever the status: claimability stays, and a terminal row is settled after it only without a pid |
| RunStore.ScanHistory.RecordFinish | marlinspike/run_store.py:107-146 | a terminal outcome leaves the row settled: terminal with no engine pid; a failed commit changes nothing |
| RunStore.ScanHistory.FinalizeLive | marlinspike/app.py:1198-1237 | the live finalizer's commit never leaves the `finalizing` marker behind |
| RunStore.ScanHistory.ClaimForRecovery | marlinspike/run_store.py:181-209 | the claim is won if and only if the row was running and unclaimed, and only then changes it |
| RunStore.ScanHistory.MarkFinalizing | marlinspike/run_store.py:212-230 | marks any running row, a claimed one included |
| RunStore.ScanHistory.ReclaimFinalizing | marlinspike/run_store.py:233-252 | won if and only if the row was running and finalizing |
| Recovery.ReconcileRun | marlinspike/recovery.py:287-381 | one row is claimed or reclaimed and settled by the verdict its own state and probes determine, with each commit succeeding or failing |
| Recovery.ReapOrphanRuns | marlinspike/recovery.py:243-386 | table, counters and watchers after the loop are those of the pass, row by row, whichever commits fail |
| Recovery.WatchLoop | marlinspike/recovery.py:410-432 | the watcher settles the row at the first dead poll: completed exactly with a complete report, degraded exactly when enrichment raised, else failed; a failing commit changes nothing |
| Recovery.PassReconcilesEachRow | marlinspike/recovery.py:287-381 | every listed row is treated by its own state alone, whatever the listing order; every other row is untouched |
| Recovery.PassIsSafe | marlinspike/recovery.py:321-381 | a row that is not owned stays; watchers are exactly the claimed rows with a live engine; a live engine is finished under only after a reclaim; every other owned row ends settled, completed exactly with a complete report, abandoned exactly when claimed past its deadline, degraded exactly when enrichment raised; with a failing commit it stays claimed |
| Recovery.PassByFields | marlinspike/recovery.py:301-381 | in the fields of row and probe alone: a listed row is watched if and only if it is unclaimed, its claim commits, it has a positive pid, that process is alive and its arguments match; owned otherwise it ends completed with a complete report, else abandoned past its deadline, else failed, with its pid cleared |
| Recovery.PassAccountsForEveryRow | marlinspike/recovery.py:267-278 | `checked` equals the sum of the other counters, and watchers equal `reattached` |
| Recovery.CountersCountVerdicts | marlinspike/recovery.py:297-381 | each counter is the number of listed rows whose own state and probes give that verdict |
| Recovery.CountersByFields | marlinspike/recovery.py:258-378 | each of the six counters is the number of listed rows whose own fields and probe call for it |
| Recovery.SecondPassSkipsEverything | marlinspike/recovery.py:297-314 | after claims that committed, a second boot at the same time skips every row and leaves the table as it is |
| Recovery.ScopesDoNotMeet | marlinspike/run_store.py:149-178 | the main reaper and the gateway's list every running row, none twice, and a pass of one leaves the other's rows as they are |
| RecoveryProtocol.Transact | marlinspike/run_store.py:28-252 | every protocol step, carried out by the table's methods, has the row effect the protocol says and touches no other row |
| RecoveryProtocol.ApplyKeepsInv | marlinspike/run_store.py:181-252 | every step of every actor, failing commits and crashes included, keeps the protocol invariant |
| RecoveryProtocol.NoDuplicateReconciliation | marlinspike/run_store.py:181-252 | in every interleaving: at most one claim per launch; claims plus reclaims at most one plus the marks that overwrote a claim, and while the row runs exactly those marks, plus one when it is claimed; at most one watcher per claim; finishes at most one per grant |
| RecoveryProtocol.WatchersAreCounted | marlinspike/recovery.py:339-347 | in every interleaving the watchers running are no more than the re-attachments counted |
| RecoveryGrants.SecondGrantExactly | marlinspike/run_store.py:212-252 | a claim or reclaim succeeds after one already did since the launch if and only if it is a committed, past-deadline reclaim of a row whose claim a mark overwrote |
| RecoveryGrants.FinishedTwiceExactly | marlinspike/recovery.py:301-314 | for every run, relaunches included: the grants of the last launch are those committed, given up or held, and are two or more if and only if such a reclaim has occurred since that launch; without one ever, finishes never exceed launches |
| RecoveryGrants.FinishedOnceUnless | marlinspike/run_store.py:61-86 | recovery finishes a launch at most once unless such a reclaim occurred since it or a grant of an earlier launch was committed; once its grants are used up, exactly when it finishes it twice or more |
| RecoveryGrants.StaleCommitHappens | marlinspike/run_store.py:61-86 | a run with no mark and no reclaim in which an earlier launch's reaper and the second launch's own both finish the second launch |
| RecoveryGrants.TwoReapersFinishOneRun | marlinspike/run_store.py:212-230 | the bound is reached: a run in which one launch is finished by two reapers |
| RunOutcomes.OrphanIsReconciledOnce | marlinspike/recovery.py:297-381 | from a claimable row whose live workers and recovery owners are gone, whatever was granted before: of any number of reapers exactly one gets it, and when all are done it was finished once more and is settled |
| RunOutcomes.ExactlyOneReaperReconciles | marlinspike/recovery.py:297-314 | the same over runs: after any run, crashes included, that leaves such a row, every continuation without crash or failed commit grants it exactly once and finishes it exactly once |
| RunOutcomes.OrphanIsReached | marlinspike/recovery.py:287-296 | a run that leaves such a row: two reapers list it and its launching worker crashes |
| RunOutcomes.ReapersDefer | marlinspike/run_store.py:212-230 | from a row that is being finalized, with no owner and no reaper past its deadline: without a launch or a listing past the deadline, recovery never wins or finishes the row, and only a live worker changes its status |
| RunOutcomes.RecoveryFinishesExactly | marlinspike/run_store.py:212-222 | over every run, once its grants of a launch are used: recovery finishes the launch, committed by its live worker or not, if and only if since it a claim was won, a marked row reclaimed past its deadline or an earlier launch's grant committed; the claim is won before every mark, and claim and reclaims before every live commit |
| RunOutcomes.WorkerAndReaperFinish | marlinspike/run_store.py:212-222 | a run in which the live worker and a reaper both finish one launch |
| RunOutcomes.UninterruptedReaperIsThePass | marlinspike/recovery.py:287-381 | one reaper's steps in sequence, failing commits included, are the sequential pass |
| RunOutcomes.WatcherIsTheLoop | marlinspike/recovery.py:410-432 | the watcher's two steps in sequence are the watch loop |
| RunOutcomes.TerminalUntilRestarted | marlinspike/run_store.py:28-146 | through every run without a launch a terminal row stays terminal, and gets an engine pid back only from an update_pid |
| RunOutcomes.EveryRunSettles | marlinspike/app.py:1198-1237 | without crashes and failed commits, live workers included: when all actors are done after at least one launch, the row is settled |
| RunOutcomes.SettledUnlessPidReported | marlinspike/run_store.py:89-104 | a settled row stays settled if and only if no engine pid is reported by its live worker |
| RunOutcomes.SettledRegainsPid | marlinspike/run_store.py:89-104 | a run in which a settled row gets an engine pid again |
| RunOutcomes.CompletedUnlessFailureCommits | marlinspike/run_store.py:107-146 | a completed row stays completed if and only if no actor that decided otherwise commits |
| RunOutcomes.CompletedRunOverwritten | marlinspike/run_store.py:107-146 | a run in which a completed row becomes failed |
| ScanSlots.Registry.Cleanup | marlinspike/app.py:528-541 | drops exactly the completed, failed and stopped runs that finished more than an hour ago, so the active runs stay |
| ScanSlots.Registry.Reserve | marlinspike/app.py:963-991 | admits if and only if no run is pending or running, and then already counts; a refusal names the limit of one and exactly the active runs |
| ScanSlots.Registry.Launch | marlinspike/app.py:5294-5295 | the placeholder becomes the running run and takes no further slot |
| ScanSlots.Registry.Release | marlinspike/app.py:994-1002 | drops the run only while it is a pending placeholder, so at most its own slot is freed |
| ScanSlots.Registry.GetActive | marlinspike/app.py:926-933 | exactly the pending and running runs |
| ScanSlots.Serve | marlinspike/app.py:963-1002 | every event of the interleaving, carried out by the registry's methods, has the effect the interleaving says |
| ScanSlots.LimitHoldsInEveryRun | marlinspike/app.py:956-1002 | in every interleaving at most one run is pending or running |
| ScanSlots.RunningRunIsNeverEvicted | marlinspike/app.py:994-1002 | no release, cleanup or other request removes or overwrites a running run |
| ScanSlots.ReservationCountsAtOnce | marlinspike/app.py:966-974 | a reservation turns away the very next request |
| PcapClassic.ReadPcap | marlinspike/_pcap_header.py:110-180 | the cursor loop computes the reader function on every byte string, errors included |
| PcapClassic.ClassicRoundTrip | marlinspike/_pcap_header.py:110-180 | for every capture, byte order and resolution the reader accepts if and only if no record is absurd, and recovers count, first and last time, duration, link type and snaplen |
| PcapClassic.RefusedExactly | marlinspike/_pcap_header.py:110-127 | every byte string is refused as truncated if and only if it is shorter than 24 bytes, and for its magic if and only if it starts with none of the four |
| PcapClassic.TruncatedRecords | marlinspike/_pcap_header.py:140-168 | a file cut anywhere is read as the records whose headers survived, and refused if and only if one of those is absurd |
| PcapNg.ScanOptionsLoop | marlinspike/_pcap_header.py:286-304 | the option loop computes the option scan, the index error included |
| PcapNg.AbsorbBlock | marlinspike/_pcap_header.py:276-350 | one block changes interfaces, snaplen, count and stamps as the block's kind says |
| PcapNg.ReadFrame | marlinspike/_pcap_header.py:221-274 | one step of the cursor delivers the next block or stops where the reader stops |
| PcapNg.ReadBlocksLoop | marlinspike/_pcap_header.py:220-350 | the block loop ends and computes the block walk |
| PcapNg.ReadPcapng | marlinspike/_pcap_header.py:183-369 | section header, walk and summary on every byte string |
| PcapNg.ReadCaptureSummary | marlinspike/_pcap_header.py:89-107 | the first four bytes choose the format, on every byte string |
| PcapNg.ScanRaisesExactly | marlinspike/_pcap_header.py:288-304 | the scan raises if and only if a resolution option's header ends exactly at the bytes read |
| PcapNg.ScanWithinRoom | marlinspike/_pcap_header.py:286-304 | options that fit never raise and the last resolution option wins |
| PcapNg.ReadSerialisedSection | marlinspike/_pcap_header.py:183-369 | reading the bytes of a section is walking its logical blocks |
| PcapNg.NgRoundTrip | marlinspike/_pcap_header.py:183-369 | for every section in either byte order: raises exactly at an option at the cap, else recovers packet count, link type, largest snaplen, duration and the first and last time, each the 64-bit tick count of an Enhanced Packet Block over the units per second its interface declares; interface and packet blocks too short for their fields count nothing |
| PcapNg.ResolutionMeans | marlinspike/_pcap_header.py:297-302 | a resolution byte below 128 counts a power of ten units per second, one from 128 on a power of two |
| PcapNg.BodyReadIsCapped | marlinspike/_pcap_header.py:246-263 | at most 4096 bytes of an interface, 20 of an Enhanced Packet Block, 12 of a Packet Block and none of any other block are read |
| PcapNg.UntrustedLengthEnds | marlinspike/_pcap_header.py:230-233 | a block length below 12 or not a multiple of 4 ends the section there, whatever follows |
| PcapNg.SectionRefusedExactly | marlinspike/_pcap_header.py:94-207 | every byte string is too short below 4 bytes, a pcapng file truncated below 12, and refused for its byte order if and only if the magic stands there in neither order |
| PcapNg.TruncatedSection | marlinspike/_pcap_header.py:190-274 | a section cut anywhere reads as its leading whole blocks; within its first twelve bytes it is an error |
| PcapNg.ObsoletePacketsNeverCount | marlinspike/_pcap_header.py:255-343 | a Packet Block anywhere in a section changes nothing in the summary |
| PcapNg.CappedInterfaceIsRead | marlinspike/_pcap_header.py:246-304 | an interface that does not raise counts in the last resolution whose header lies within the cap; that is the last one declared if and only if no later resolution option names another |
| PcapNg.CappedResolutionIsIgnored | marlinspike/_pcap_header.py:247-252 | a well-formed interface over the cap that is read in another resolution than it declares |
| PcapNg.FittingInterfaceIsRead | marlinspike/_pcap_header.py:246-252 | an interface whose options fit the cap never raises and counts in its last declared resolution |
| PcapNg.OversizedInterfaceRaises | marlinspike/_pcap_header.py:246-296 | a well-formed section whose one interface block exceeds the cap makes the reader raise |
| PcapNg.ByteOrderDoesNotMatter | marlinspike/_pcap_header.py:198-204 | the two byte orders of one section give the same summary |
| PcapNg.ClassicIsDispatched | marlinspike/_pcap_header.py:100-107 | a serialised classic capture reaches the classic reader |
| Timeline.AddEntry | marlinspike/app.py:170-178 | every bucket grows by exactly the entry's share, all others stay |
| Timeline.FillColumns | marlinspike/app.py:161-178 | the three arrays hold the column sums of all entries |
| Timeline.ComputeTimelineBuckets | marlinspike/app.py:127-195 | the result is the non-empty columns in order, or the empty timeline without usable conversations |
| Timeline.GridFits | marlinspike/app.py:153-169 | one to 121 buckets, and every index is in range before the clamps, which change nothing |
| Timeline.SpreadOverMet | marlinspike/app.py:166-175 | an entry is spread over exactly the buckets whose half-open span its interval meets |
| Timeline.CountsMetEntries | marlinspike/app.py:174-176 | a bucket's count is the number of entries whose interval meets it |
| Timeline.SharesAddUp | marlinspike/app.py:172-178 | equal shares plus spread remainder add up to the entry's total, negative totals included |
| Timeline.EmittedAreMetColumns | marlinspike/app.py:180-189 | a bucket is emitted if and only if some conversation meets it |
| Timeline.TimelineConserves | marlinspike/app.py:133-189 | packets and bytes over the emitted buckets equal the sums over the conversations with a start |
| Timeline.TimelineGeometry | marlinspike/app.py:153-189 | at most 121 buckets, each a whole number of widths after the first start, with the positive number of conversations whose interval meets its half-open width |
| Timeline.MetSpansHaveBuckets | marlinspike/app.py:170-189 | conversely every width that some conversation meets has its bucket |
| Timeline.TimelineWindow | marlinspike/app.py:133-155 | the window runs from the earliest start to the latest end, a missing or earlier end read as the start; there is none if and only if no conversation has a start |
| Timeline.WidthIsLeast | marlinspike/app.py:157-158 | the bucket width is the least whole number of seconds, at least one, whose 120-fold covers the window |
| Timeline.GridEnds | marlinspike/app.py:159 | the grid ends one bucket past the least number of widths that covers the window |
| Rollup.OverReplays | marlinspike/aggregate.py:145-252 | the one-pass fold refines its declarative reading: a key's slot replays its own sightings and counts the reports that have it |
| Rollup.SightingsPerReport | marlinspike/aggregate.py:244-247 | sightings of a key are at least the reports that have it, and as many if and only if no report has it twice |
| Rollup.TotalsAgree | marlinspike/aggregate.py:244-247 | the counts of all slots sum to the distinct keys per report |
| Aggregate.MergeIds | marlinspike/aggregate.py:248-251 | the id loop appends exactly the new non-empty ids |
| Aggregate.AddFinding | marlinspike/aggregate.py:206-247 | one finding changes the entry, its key with category and affected lists included, the per-report key set and the severity count as one fold step |
| Aggregate.AddFindings | marlinspike/aggregate.py:202-251 | the loop over one report's findings is the fold over that report and the severity tally of its first mentions |
| Aggregate.AggregateFindings | marlinspike/aggregate.py:202-252 | the nested loops compute the fold over every loadable report |
| Aggregate.FindingRollup | marlinspike/aggregate.py:202-252 | per key: an entry, with this key, if and only if a loadable report has it, `occurrences` the number of such reports, the worst severity by name with unknown ones read as medium, largest impact, least and greatest stamp with a report that has it, and all ids once |
| Aggregate.FindingTies | marlinspike/aggregate.py:229-239 | among reports with one stamp, first and last seen of a finding bear the name of the first that has it |
| Aggregate.LatestTextWins | marlinspike/aggregate.py:229-236 | description and remediation are those of the last newest-so-far sighting that has one, else of the first |
| Aggregate.FirstSourceStays | marlinspike/aggregate.py:218 | the source is the first sighting's, "engine" when it names none |
| Aggregate.SeverityCountsSumToOccurrences | marlinspike/aggregate.py:244-247 | `severity_counts` sums to `finding_occurrences` |
| Aggregate.TallyCountsFirstMentions | marlinspike/aggregate.py:244-247 | each severity counts exactly the first mentions per report that carry it |
| Assets.LearnOwners | marlinspike/aggregate.py:94-106 | the first pass computes the owner map |
| Assets.OwnersArePairs | marlinspike/aggregate.py:94-106 | an IP has an owner if and only if some loadable report pairs it with a MAC, and the owner is such a MAC |
| Assets.OwnerIsFirst | marlinspike/aggregate.py:88-106 | each IP belongs to the MAC of the first node, over all loadable reports in order, that has both |
| Assets.KeyByFields | marlinspike/aggregate.py:48-65 | a node's key is its MAC, else for an IP paired anywhere the MAC of such a pair, else its IP, and none without an address; keyed by IP only in the third case |
| Assets.AddAsset | marlinspike/aggregate.py:152-186 | one node changes the asset and the per-report key set as one fold step |
| Assets.AddAssets | marlinspike/aggregate.py:151-196 | the loop over one report's nodes is the fold over that report |
| Assets.AggregateAssets | marlinspike/aggregate.py:86-196 | both passes compute the fold keyed by resolved identity |
| Assets.AssetRollup | marlinspike/aggregate.py:152-196 | per key: an asset if and only if a node resolves to it, `report_count` the number of such reports, and exactly these nodes' MACs, IPs, roles, vendors, device types, Purdue levels, protocols and window |
| Assets.AssetTies | marlinspike/aggregate.py:175-182 | the same for an asset's first and last seen |
| Assets.DeviceNeverSplits | marlinspike/aggregate.py:48-65 | for every report list the key of an IP-keyed asset is paired with no MAC; the asset holds no MAC and only its own IP if and only if no node's MAC is spelt like that IP |
| Assets.EveryNodeLands | marlinspike/aggregate.py:48-65 | every node with a MAC or IP is in the asset of its key with both addresses; a bare paired IP lands under a MAC it is paired with |
| JsonMerge.CombineLists | marlinspike/app.py:1072-1079 | the list loop appends exactly the items not there yet |
| JsonMerge.MergeNested | marlinspike/app.py:1061-1085 | the recursive loop over keys terminates and computes the merge |
| JsonMerge.MergeOne | marlinspike/app.py:1069-1084 | one pass of the loop decides one key by the two values' kinds |
| JsonMerge.AppendNewHolds | marlinspike/app.py:1072-1079 | a merged list starts with the old one and holds exactly the items of both |
| JsonMerge.MergeAbsorbs | marlinspike/app.py:1061-1085 | merging the same dictionary again changes nothing |
| JsonMerge.MergeKeeps | marlinspike/app.py:1061-1085 | the merged keys are the union; everything an existing dictionary says is kept at every depth; nothing is lost if and only if the existing value is a dictionary or blank |
| JsonMerge.MergedEntry | marlinspike/app.py:1068-1084 | what one key holds after the merge, for every pair of kinds |
| ChunkMerge.AbsorbInto | marlinspike/app.py:1150-1193 | the field loops update an existing conversation as one merge step |
| ChunkMerge.FieldsByKind | marlinspike/app.py:1093-1115 | which fields are added up, filled once, joined, merged and raised |
| ChunkMerge.MergeChunkConversations | marlinspike/app.py:1116-1195 | the nested loops compute the ordered fold over all chunks |
| ChunkMerge.OneConversationPerKey | marlinspike/app.py:1140-1149 | the output has exactly one conversation per key that occurs |
| ChunkMerge.FlatFold | marlinspike/app.py:1116-1193 | only the concatenation of the chunks matters, not where the capture was cut |
| ChunkMerge.MergeResumes | marlinspike/app.py:1088-1195 | merging a prefix and feeding the result back with the rest gives the list of merging all at once |
| ChunkMerge.MergedConversation | marlinspike/app.py:1140-1193 | each output conversation is the fold of its key's own conversations over all chunks |
| ChunkMerge.SumsConserved | marlinspike/app.py:1153-1154 | packets, bytes and writes are conserved per key |
| ChunkMerge.WindowSpans | marlinspike/app.py:1156-1163 | first seen is the least non-empty stamp of the key, last seen the greatest |
| ChunkMerge.FirstTextStays | marlinspike/app.py:1165-1169 | a text field holds the first non-empty value of the key's conversations |
| ChunkMerge.ListsCollect | marlinspike/app.py:1171-1179 | a list field holds exactly the items of all the key's conversations |
| ChunkMerge.IdentityNeverLost | marlinspike/app.py:1181-1182 | no identity dictionary ever loses what it says, however many chunks follow |
| ChunkMerge.BeaconIsTheBest | marlinspike/app.py:1188-1191 | the three beacon figures come from the first conversation with the highest score |
| ChunkMerge.EntropyAndFlags | marlinspike/app.py:1184-1193 | the entropy is the maximum and a flag is set if and only if some conversation sets it |
| Baselines.CollectPresences | marlinspike/baselines.py:116-134 | the presences are the reports that have the asset, in order |
| Baselines.PeerIsTheOtherEnd | marlinspike/baselines.py:264-279 | a conversation has a peer if and only if one end is the asset and the other has an IP, which is then the peer |
| Baselines.NotePresence | marlinspike/baselines.py:256-317 | the loop over one presence updates the history and collects the names it mentions |
| Baselines.TrackHistory | marlinspike/baselines.py:245-317 | history, baseline set and latest set over all presences |
| Baselines.PeerFiles | marlinspike/baselines.py:319-353 | the second pass collects the file names of each peer's sightings |
| Baselines.BuildView | marlinspike/baselines.py:245-368 | rows, novelty and delta of one kind of item are those of its groups of sightings |
| Baselines.RowDescribes | marlinspike/baselines.py:287-317 | a row exists if and only if a presence mentions the name; first and last are the lexicographic minimum and maximum of (ts, filename); totals and counts are those of its sightings |
| Baselines.TimesAreReports | marlinspike/baselines.py:412-431 | `in_reports` and `reports_with_event` are the number of reports that mention the name if and only if none mentions it twice, and exceed it otherwise |
| Baselines.PeerReportCount | marlinspike/baselines.py:319-352 | `report_count` is the number of reports that show the peer if and only if these have different file names, and falls short otherwise |
| Baselines.ReportCountIsReports | marlinspike/baselines.py:319-352 | the same for any groups of sightings filed under one name each |
| Baselines.TwoFindingsOneReport | marlinspike/baselines.py:412-422 | one report with two findings of a category is counted as two |
| Baselines.OneFileTwoReports | marlinspike/baselines.py:347-352 | two reports under one file name are counted as one |
| Baselines.ViewsAgree | marlinspike/baselines.py:542-660 | rows flagged new are exactly the novelty set, which lies in the delta's added set; what the delta removes is lost; previous + added - removed = last |
| Baselines.CountTraffic | marlinspike/baselines.py:188-211 | packets of the asset's conversations by protocol |
| Baselines.NoteProtocols | marlinspike/baselines.py:234-241 | one presence appends one appearance to each of its protocols |
| Baselines.TrackProtocols | marlinspike/baselines.py:227-241 | the baseline set and the appearances of every protocol |
| Baselines.TrackAnomalies | marlinspike/baselines.py:455-500 | the anomaly cadence and its delta are those of the anomaly sightings |
| Baselines.ComputeAssetBaseline | marlinspike/baselines.py:78-691 | None exactly when no report has the asset, else the whole profile of its presences |
| Baselines.ProtocolViewsAgree | marlinspike/baselines.py:227-241 | protocols with an appearance flagged new are exactly `new_protocols`, each with one appearance, within the delta's added set |
| AssetProfile.PresencesByFields | marlinspike/baselines.py:116-134 | the presences are the reports with a node of the asked MAC or IP, in order, each with its first such node |
| AssetProfile.PeerSightings | marlinspike/baselines.py:264-285 | a peer's sightings are the asset's conversations with it, by IP before MAC and by source before destination, passing over empty ends |
| AssetProfile.FindingSightings | marlinspike/baselines.py:384-402 | a category's sightings are the findings of that category that list one of the asset's addresses |
| AssetProfile.AnomalySightings | marlinspike/baselines.py:464-478 | an anomaly type's sightings are those with the asset's MAC at either end |
| AssetProfile.PeerRow | marlinspike/baselines.py:287-317 | a peer has a row if and only if some presence has a conversation with it, and its first and last report are the least and greatest such by time and then file name |
| AssetProfile.ProtocolRow | marlinspike/baselines.py:168-241 | a protocol appears once per presence that has it, in order, with the packets of the asset's conversations in it, flagged new if and only if no presence before the last has it |
| AssetProfile.ProtocolsByFields | marlinspike/baselines.py:188-213 | a presence has a protocol if and only if its node lists it or a conversation of the asset uses it |
| AssetProfile.ProtocolDelta | marlinspike/baselines.py:582-660 | the protocol delta is the difference of the last two presences, the first one's of a single presence and nothing |
| AssetProfile.SightingDelta | marlinspike/baselines.py:582-660 | the same for peers and findings |
| ProjectAudit.Auditor.NoteNode | marlinspike/project_audit.py:61-113 | a node's vulnerability is discovered, reopened or left alone |
| ProjectAudit.Auditor.NoteAdvisory | marlinspike/project_audit.py:118-152 | an advisory discovers a key and never reopens one |
| ProjectAudit.Auditor.NoteVulns | marlinspike/project_audit.py:56-152 | one report's nodes and advisories are noted in order, and the keys present collected |
| ProjectAudit.Auditor.DetectRemediated | marlinspike/project_audit.py:155-173 | exactly the active keys absent from the report are remediated |
| ProjectAudit.Auditor.AddScan | marlinspike/project_audit.py:47-185 | one report, its closing pass and its snapshot |
| ProjectAudit.GenerateAudit | marlinspike/project_audit.py:43-191 | the audit of every report sequence |
| ProjectAudit.ScanStep | marlinspike/project_audit.py:47-185 | one report moves every key by its own small machine, whatever the other keys do |
| ProjectAudit.EventsAlternate | marlinspike/project_audit.py:47-173 | a key's events are DISCOVERED then alternating REMEDIATED and REOPENED, at most one per report, and its status is their parity |
| ProjectAudit.TrackedIfSeen | marlinspike/project_audit.py:67-82 | a key is tracked if and only if some report has it |
| ProjectAudit.PresentByFields | marlinspike/project_audit.py:62-122 | a report has a key if and only if one of its nodes or advisories names that id on that address |
| ProjectAudit.KeysTellApart | marlinspike/project_audit.py:63 | two vulnerabilities share a key if and only if they are one id on one address, as long as addresses have no bar |
| ProjectAudit.BarsConfuse | marlinspike/project_audit.py:63 | with a bar in an address two different vulnerabilities share a key |
| ProjectAudit.SummaryCountsEvents | marlinspike/project_audit.py:187-190 | `total_discovered` is the number of DISCOVERED events, `remediated` that of REMEDIATED less REOPENED |
| ProjectAudit.ActiveAfterScan | marlinspike/project_audit.py:67-173 | after each report a key is active if and only if a node has it, or an advisory names it and it was not remediated before |
| ProjectAudit.ActiveArePresent | marlinspike/project_audit.py:155-158 | only keys present in the report are active, and which present keys are not |
| ProjectAudit.SnapshotAgreesUnlessAdvisoryReturns | marlinspike/project_audit.py:175-185 | snapshot figures are the events'; the active count is the tracker's if and only if no advisory-only key was remediated before |
| ProjectAudit.AdvisoryReturns | marlinspike/project_audit.py:118-152 | a history whose last snapshot disagrees with the tracker |
| Scheduler.CheckDueSlot | marlinspike/scheduler.py:56-78 | the slot loop computes the due check, malformed entries and the range error included |
| Scheduler.RunDueSchedules | marlinspike/scheduler.py:81-119 | a tick starts the captures of exactly the due projects up to the first one that raises, agent by agent up to the call that raises, and stamps those whose calls and commit all succeed |
| Scheduler.DueCharacterised | marlinspike/scheduler.py:60-78 | the check raises, triggers or skips by the first entry that is out of range or due |
| Scheduler.DueByTheClock | marlinspike/scheduler.py:60-76 | an entry is due if and only if it is an hour and minute of the day, its time on this UTC day has come at most 180 s ago and nothing was stamped since |
| Scheduler.OutcomeByTheClock | marlinspike/scheduler.py:87-93 | a tick does nothing without an enabled schedule or a deciding entry, triggers when the first deciding entry is due and the duration converts, and raises otherwise |
| Scheduler.TriggerWithinGrace | marlinspike/scheduler.py:66-70 | every trigger has a due slot at most 180 s ago |
| Scheduler.SlotFiresOnce | marlinspike/scheduler.py:71-76 | even with the schedule edited between ticks, a slot triggers a second time only while no stamp has committed since the first, so at most once when every trigger commits its stamp |
| Scheduler.TriggersAgainExactly | marlinspike/scheduler.py:101-119 | after a slot's trigger, a tick in its window triggers it again if and only if no stamp has committed since |
| Scheduler.TriggersOnceExactly | marlinspike/scheduler.py:101-119 | with one usable schedule a slot triggers once if and only if its first trigger commits the stamp or no further tick falls into its window |
| Scheduler.SlotStartsTwice | marlinspike/scheduler.py:101-119 | a run in which an agent's capture is started twice for one slot, because the next agent's call raised |
| Scheduler.EverySlotFires | marlinspike/scheduler.py:40-43 | with ticks at most a gap apart, the gap at most a microsecond over the grace period, every slot at least that gap before midnight triggers within its grace |
| Scheduler.LateSlotCanBeMissed | marlinspike/scheduler.py:66-68 | any slot nearer to midnight than the gap has a run that misses it |
| Scheduler.WideGapMissesSlot | marlinspike/scheduler.py:69-70 | with a wider gap any slot has a run that misses it |
| Scheduler.SlotCanBeMissed | marlinspike/scheduler.py:60-70 | outside those bounds every schedule that has the slot has a run that misses it |
| Scheduler.AlwaysFiresExactly | marlinspike/scheduler.py:60-70 | for every in-range schedule, a slot of it triggers in every run with that gap if and only if the gap is within both bounds |
| TicketLedger.Ledger.RecordTicket | marlinspike/webhook.py:384-395 | a row is written at most once, and a failed write is swallowed |
| TicketLedger.Ledger.SelectNew | marlinspike/webhook.py:409-410 | the findings whose key has no row for this project and platform, in order |
| TicketLedger.Ledger.Deliver | marlinspike/webhook.py:398-439 | ledger, tickets and summary after one delivery, with any answers of the platform |
| TicketLedger.SummaryAccounts | marlinspike/webhook.py:409-439 | created plus failed is the attempts, at most 25; nothing is left over below the cap; created is the number of new tickets |
| TicketLedger.SkipsExactlyLedgered | marlinspike/webhook.py:379-421 | from any ledger: the findings skipped are exactly those with a row of their own project, platform, category, description and affected nodes, and every other one is attempted, in order, unless 25 such come before it |
| TicketLedger.DeliveryLeaves | marlinspike/webhook.py:424-432 | after a delivery the platform has tickets for exactly the attempted findings it accepted besides the old ones, each under its own row, and the ledger exactly the rows whose write succeeded |
| TicketLedger.UnconfiguredDoesNothing | marlinspike/webhook.py:400-407 | an unconfigured delivery changes and counts nothing |
| TicketLedger.DeliveryKeepsTicketsUnique | marlinspike/webhook.py:409-439 | from any ledger, lost writes included, a delivery opens no second ticket if and only if it opens no key twice and none that has a ticket |
| TicketLedger.TicketedAttemptsAreLost | marlinspike/webhook.py:384-410 | an attempted finding has a ticket if and only if its ledger write was lost |
| TicketLedger.UniqueExactlyWhenNoneOpensAgain | marlinspike/webhook.py:398-439 | over any deliveries, each key has at most one ticket per platform if and only if no delivery opens a key twice or one that has a ticket |
| TicketLedger.UniqueExactlyWhenKeysDiffer | marlinspike/webhook.py:415-439 | with every call succeeding, if and only if the attempted findings have different keys and none lost its ledger write |
| TicketLedger.AtMostOneTicket | marlinspike/webhook.py:556-598 | over any deliveries with any refusals, different keys per delivery and no lost write, each key has at most one ticket per platform |
| TicketLedger.RowsStayUnique | marlinspike/models.py:134-138 | the unique constraint holds after any delivery |
| TicketLedger.RepeatedDeliveryDrains | marlinspike/webhook.py:415-421 | k deliveries of the same n fresh findings ticket exactly the first min(n, 25k), in order |
| TicketLedger.DuplicateInOneDelivery | marlinspike/webhook.py:410-432 | two findings with one key in one delivery get two tickets |
| TicketLedger.LostWriteOpensAgain | marlinspike/webhook.py:384-395 | a ticket whose write was lost is opened again |
| TicketWorkers.UninterruptedIsDelivery | marlinspike/webhook.py:409-439 | a worker's steps without interleaving are the sequential delivery |
| TicketWorkers.TicketedWhen | marlinspike/webhook.py:409-432 | an attempted finding has a ticket if and only if one was opened since its worker read the ledger or lost its write before |
| TicketWorkers.UniqueExactlyWhenNoneRaces | marlinspike/webhook.py:409-432 | over every interleaving of deliveries, each key has at most one ticket per platform if and only if no step opens one for such a finding |
| TicketWorkers.TwoWorkersOpenTwice | marlinspike/webhook.py:409-432 | two workers that both read first open two tickets, although every call and write succeeds |
| Lockout.VerifyUser | marlinspike/auth.py:149-203 | exactly one hash comparison in every case; while locked nothing changes; else a right password clears counter and lock, and a wrong one adds one failure and from the fifth on locks for 15 minutes |
| Lockout.GuessesPerWindow | marlinspike/auth.py:145-192 | in every run without a success the attempts compared with the user's hash in any window are at most 5 + floor(span / 15 min) |
| Lockout.GuessesBetweenSuccesses | marlinspike/auth.py:145-192 | over every run, successes included: that bound for each stretch between successes, and the successes themselves |
| Lockout.BoundIsReached | marlinspike/auth.py:145-192 | for every span some run of wrong guesses reaches the bound |
| Lockout.LockedIsFrozen | marlinspike/auth.py:167-177 | before `locked_until` no attempt succeeds, is compared with the user's hash or changes the row |
| Enrich.PluginFindingToRiskFinding | marlinspike/enrich.py:232-278 | the adapter loop over addresses computes the adapted finding |
| Enrich.CollectPluginRiskFindings | marlinspike/enrich.py:219-229 | all adapted findings in extension order |
| Enrich.LoadReportWithExtensions | marlinspike/enrich.py:159-201 | extensions and findings after a load |
| Enrich.ExtensionsAfterLoad | marlinspike/enrich.py:180-193 | each of the four plugins' extensions is its sidecar if that is a dictionary naming the plugin itself; every other extension stays |
| Enrich.AdaptedByFields | marlinspike/enrich.py:232-278 | a plugin finding is adapted if and only if it is a dictionary with a category; unknown severity reads medium, the first text that is not empty describes it, and the technique ids are the non-empty ones, in order, of the first list that has any |
| Enrich.FindingsAfterLoad | marlinspike/enrich.py:195-201 | after a load every finding occurs as often as its source's extension yields it and, unless that source is one of the four plugins, as often as the report had it besides |
| Enrich.ExtensionsSettle | marlinspike/enrich.py:180-193 | a second load leaves the extensions and their order as they are |
| Enrich.Reload | marlinspike/enrich.py:195-201 | what a second load gives: the foreign extensions' findings once more |
| Enrich.LoadIsIdempotent | marlinspike/enrich.py:159-201 | a reload changes nothing if and only if no extension the report had before the first load is another program's and yields a finding |
| Enrich.ForeignFindingRepeats | marlinspike/enrich.py:195-201 | one foreign finding makes every reload differ |
| Enrich.PluginFindingsExactly | marlinspike/enrich.py:195-201 | the report's own findings come first in order, and each plugin finding occurs exactly as often as its artifact produces it |
| Enrich.AddressesOnce | marlinspike/enrich.py:239-252 | the affected addresses are the non-empty ones, once each |

## Left out

- Web routes, templates, sessions, rate limiting and the language-model client: glue without a deep invariant.
- The engine, the capture daemon, the agents and the fleet gateway are not part of this model.
- Processes, `/proc`, subprocess launch and files: whether a process lives, its arguments match, a report is complete or enrichment raises are inputs.
- The database: a transaction is one atomic step that commits or not; rows keep the columns the transitions read or write, without the diagnostic ones.
- HTTP calls: only success or refusal of each call is an input, and configuration is complete or not.
- Floating point: times in seconds and scores are reals; rounding of large timestamps is not modelled.
- Strings are taken after strip, lower and upper normalisation; time stamps and file names that are only compared are numbers in the same order; digests are injective.
- The display label of a link type is its number; the label table is data.
- Captures with several sections have no serialiser here; the reader function itself covers every byte string.
- Sorting of outputs, the roll-up's own report count, scan profiles, protocol table and attack coverage.
- The slot registry in `db` mode or with a concurrency hook installed: the bound is for memory mode with the default policy.
- Release of a claim after its owner dies: the source has none, so no liveness of recovery is claimed.
- MergeChunkConversations: does not return the merged `capture_info`, whose fields are summed or filled one by one.
- ComputeAssetBaseline: does not build the identity timeline, stability figures and presence summaries, nor take the `limit_reports` slice; each reads one node or one set.
- GenerateAudit: takes scans in chronological order instead of sorting them, and leaves out descriptive fields, the remediation rate and the compliance scores.
- RunDueSchedules: of a start call on an agent only whether it starts a capture and whether it raises is an input; the policy gates of `_start_capture_session` are not modelled.
- LoadReportWithExtensions: takes the sidecars as inputs instead of generating the MITRE one on demand, and a report that is no dictionary, which is returned as it is, is not modelled.
