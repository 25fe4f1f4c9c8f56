# Verified model of the OBoard Agent's stateful core

This project models the parts of the Agent whose correctness depends on state
that survives from one call to the next, and proves what they promise over every
run. Each module follows one source file.

| module | models |
|---|---|
| `ActivityLog`, `ActivityReport`, `DeliveryProtocol`, `ActivityRing`, `ActivityStream`, `ActivityCollector` | the three-minute activity ring, its report stream, corrections, gaps and clock lease (`internal/activity`) |
| `ActivityRelay` | the persist-then-acknowledge relay of reports to the Controller (`internal/agent/account_activity.go`) |
| `ActivityPipeline` | the way of a minute through collector and relay |
| `SshQuota` | SSH traffic counters, shared usage, acknowledgements and changes of period (`internal/agent/ssh_inbounds.go`) |
| `SshCopyLoops` | the copy loops of a user against the cap, one atomic operation at a time (`internal/agent/ssh_inbounds.go`) |
| `BillingCalendar` | billing windows and Gregorian month arithmetic (`internal/agent/ssh_inbounds.go`) |
| `Watchdog` | kernel restarts, backoff and the per-build latch (`internal/agent/core_watchdog.go`) |
| `SecuritySwitch` | the journalled runtime-security switch (`internal/agent/runtime_security.go`) |
| `SealedStorage` | the sealing migration (`internal/agent/runtime_security_storage.go`) |
| `ReleaseInstall` | the multi-file release install with rollback (`internal/agent/self_update.go`) |
| `ConnectionAudit` | active sessions under draining and generation changes (`internal/agent/connection_audit.go`, `internal/agent/activity_collection.go`) |
| `Presence` | presence numbering, batching and the bounded requeue under overlapping pollers (`internal/agent/presence.go`) |
| `UdpGateway`, `RelayFraming` | BadVPN frames and relay datagrams (`internal/agent/ssh_udpgw.go`, `internal/agent/outbound_relay.go`) |
| `OperationalConfig` | the form of a configuration that is hashed (`internal/agent/core_runtime.go`, `internal/authorization/identity.go`) |
| `AtomicWrite`, `Sums`, `Wrappers` | outcomes of a file write, sums over finite maps, optional values |

## How to read it

Objects that the source mutates are classes. Their `Valid()` is the invariant of
every reachable state: constructors establish it and every method keeps it, so
what it implies holds over every run. Ghost fields hold the history a bounded
state stands for: the log of all records, the reports issued, the restarts, the
commits, the batches delivered.

What the Agent does not decide is left open. A network reply, a failed write, a
kernel that comes back with any profile, or a crash of the process is a
nondeterministic choice inside the method that meets it, or a parameter of it, so
a contract covers every pattern of them. Where a ghost count of such setbacks is
kept, the contract also says what must happen when it does not move. Where threads
share state, every atomic operation is a step of its own, merged with others only
where that loses no result, and the steps come in any order. A file write is
atomic; a write that reports failure may still have replaced the file, because
`internal/securefile/file.go` renames before it syncs the directory. A crash is a
crash of the process, not a loss of power.

Instants and counters are mathematical integers. Saturation of 64-bit activity
counters and the clamp to the signed range are modelled, since reports depend on
them; overflow of timestamps, of quota counters and of report numbers is not.

## Where the code does less than it seems to

Each of these but the third has a lemma or clause with the exact condition, and
a run or an input that fails.

- A report marked complete can miss payload. If nobody drains the collector for a
  minute after a report has fallen due, the slot of the waiting minute can be
  taken by a later one, and the waiting one is then reported complete and empty.
  It is exact if and only if its slot was not taken or it saw no payload
  (`ActivityRing.CompleteReportIsExactIff`; run in
  `ActivityCollector.LateReadHidesMinute`).
- Late payload of a minute already reported can stay unreported. It marks the
  minute for a correction, but a later minute can take the marked slot before the
  correction is read; the complete report then stays wrong, and no gap or loss
  is counted. Payload that came after the newest report of a minute is missing
  for good if and only if the slot was taken while it was marked
  (`ActivityStream.LatePayloadIsMissedIff`; run in
  `ActivityCollector.MarkedSlotIsTaken`).
- The comment in `internal/agent/account_activity.go` says that failed saves
  never advance the file. A save can fail after the rename. The relay is proved
  correct with that behaviour.
- With reset day 29, 30 or 31 a `month_day` window can skip a month or lie in
  the future, because `AddDate` spills past a short month. The window is the
  right one if and only if no step of the branch taken spills
  (`BillingCalendar.MonthDayWindowIsTrueIff`,
  `BillingCalendar.MarchWindowIsInTheFuture`).
- Traffic counted before a counter's first policy, or in a period that the next
  one continues, stays on the counter and is missing from the new period's usage;
  and a return to an earlier period resets the counter but meets that period's
  old usage (`SshQuota.RollKeepsSumsIff`; inputs in
  `SshQuota.FirstPolicyLosesUsage`, `SshQuota.ContinuedPeriodLosesUsage` and
  `SshQuota.ReturnedPeriodKeepsOldUsage`).
- A verified rollback checks the kernel against the profile it ran before, which
  is the restored policy's profile if and only if the kernel was on it to begin
  with (`SecuritySwitch.Switch.Apply`). If it was not, a kernel that faithfully
  takes up the restored policy makes the rollback fail
  (`SecuritySwitch.Switch.RollBack`; run in
  `SecuritySwitch.DriftedKernelCannotRollBack`).
- An install can leave a sidecar file behind: when a backup cannot be removed,
  when a reserved name cannot be released, or when a directory cannot be made
  after earlier files were staged, where the code returns without cleaning up
  (`ReleaseInstall.Installer.Install`; run in
  `ReleaseInstall.SecondDirectoryFails`).
- A session that outlives an audit drain and ends before the next one is never
  reported as closed. A drain loses no end if and only if every bucket that
  counted one had a start since the last drain or still has a session
  (`ConnectionAudit.NoEndIsLostIff`; run in
  `ConnectionAudit.EndAfterDrainIsLost`).
- Two configurations that differ only in runtime users hash differently if and
  only if just one of them names such a user and some other user's rate limit
  carries an authorization key (`OperationalConfig.RuntimeUsersDoNotShowIff`;
  input in `OperationalConfig.FirstUserShows`).
- Presence numbers can be delivered out of order once the poller of a dead
  connection overlaps the next one; they increase if and only if every message is
  in order and continues the ones before (`Presence.Sender.Write`; run in
  `Presence.OverlapReorders`). An event can be received twice after a write that
  was refused too late, or arrive behind later ones for the first time. One
  poller at a time makes every step back a repetition if and only if no refused
  message brings such an event (`Presence.Sender.Arrive`,
  `Presence.OnePollerKeepsOrder`; runs in `Presence.StrayRepeats` and
  `Presence.BelatedStray`).

## Model

| member | source | states |
|---|---|---|
| ActivityLog.FoldIsBounded | internal/activity/activity.go:133-140 | in every minute of every log the account table counts each user's buckets exactly, with at most 32 per user and 4096 in all |
| ActivityLog.FoldCountsInFull | internal/activity/activity.go:98-145 | each identity of a minute is counted in full (saturated byte sums of all its records, exactly the five-second slices hit) or shut out for the whole minute because a limit was reached; never in part |
| ActivityLog.FoldAccountsForLosses | internal/activity/activity.go:129-138 | the dropped and unknown counters are exactly the records that reached no bucket, up to saturation |
| ActivityLog.SlicesTileMinutes | internal/activity/activity.go:113-142 | twelve slices of five seconds tile each minute, and every instant lies in the slice and minute it is counted in |
| ActivityLog.LosslessFoldIsExact | internal/activity/activity.go:98-145 | with no loss counted, the buckets are exactly the identities that moved payload |
| ActivityReport.SortItemsSorts | internal/activity/delivery.go:94-106 | the sort orders distinctly keyed items strictly and keeps exactly the same ones |
| ActivityReport.SortedByKey | internal/activity/delivery.go:94-106 | items stand by user, then inbound, then path, then by the first character in which their sources differ |
| ActivityReport.DifferenceMeansLess | internal/activity/delivery.go:105-105 | a text that ends first or has the smaller character at the first difference comes first |
| ActivityReport.ItemOrderIsCanonical | internal/activity/delivery.go:79-106 | the frozen item list does not depend on the order in which the map was walked |
| ActivityRing.RetainedMinuteIsHeld | internal/activity/activity.go:113-125 | every minute less than 180 s behind the latest is held exactly as the unbounded log has it |
| ActivityRing.RecordKeepsRing | internal/activity/activity.go:119-145 | giving a record its slot keeps the ring equal to the log for every minute not overtaken |
| ActivityRing.EvictedMinuteIsExpired | internal/activity/activity.go:122-125 | a slot is only ever taken from a minute at least a full window older |
| ActivityRing.SlotsAreBounded | internal/activity/activity.go:133-140 | in every reachable ring each slot keeps both limits and an exact account table |
| ActivityRing.LosslessReportIsExact | internal/activity/delivery.go:74-93 | a report frozen from a lossless, unclamped minute lists exactly the identities of the log, with exact sums and slices, in order |
| ActivityRing.CompleteReportIsExactIff | internal/activity/delivery.go:58-93 | a complete report is exact if and only if its slot was not taken by a later minute or the minute saw no payload; it is always exact while the minute is retained |
| ActivityRing.ReportTellsMinute | internal/activity/delivery.go:67-93 | a report in terms of the log alone: it counts all identities but those shut out by a limit of 4096, or of 32 per user, that was reached; lists each with its slices and bytes up to the largest signed number; and its dropped number is the saturated sum of one for a gap, the records that reached no bucket and one per value cut |
| ActivityRing.NothingDroppedIff | internal/activity/delivery.go:67-93 | a report tells no loss if and only if there was no gap, no shut-out record and no clamped value |
| ActivityCollector.LateReadHidesMinute | internal/activity/delivery.go:67-75 | a run of records, reads and acknowledgements in which a settled, loss-free minute is reported complete and empty although it had payload |
| ActivityCollector.MarkedSlotIsTaken | internal/activity/activity.go:122-128 | a run in which a marked slot is taken: the complete report of its minute stays wrong and the next read goes on |
| ActivityRing.WalkBuckets | internal/activity/delivery.go:79-106 | whatever the walking order, the items list every bucket once and in order, and the loss grows by exactly one per clamped value, up to saturation |
| ActivityStream.IssueKeepsAccount | internal/activity/delivery.go:67-73 | normal, correction and gap reports all leave every minute up to `next` with its own report or inside the span of an explicit gap report, and no other report answers for more than its own minute |
| ActivityStream.ReportStaysExactIff | internal/activity/delivery.go:74-93 | every loss-free report ever issued is exact for the whole log, later records included, if and only if no payload of its minute came after it and its slot had not been taken before or the minute saw no payload |
| ActivityStream.IssuedReportTellsMinute | internal/activity/delivery.go:67-93 | every report ever issued tells its minute in terms of the log of its moment, loss numbers included; if its slot was already taken it lists nothing and tells no loss but a gap |
| ActivityStream.LatePayloadIsMissedIff | internal/activity/activity.go:119-128 | in every reachable state, payload that came after the newest own report of a minute is unreported if and only if the minute is marked or lost its slot while marked, and the report is exact accordingly |
| ActivityStream.UnmarkedMinutesAreExact | internal/activity/delivery.go:41-53 | the newest own report of a retained, unmarked minute is exact for the whole log if it is loss-free |
| ActivityStream.MissedMinuteIsLost | internal/activity/activity.go:113-116 | a minute that lost its slot while marked takes no more records and no read goes back to it |
| ActivityStream.RecordKeepsTracking | internal/activity/activity.go:119-128 | a record marks its minute if that was reported, and whatever loses its slot while marked is remembered as missed |
| ActivityStream.IssueKeepsTracking | internal/activity/delivery.go:67-76 | a report clears its own mark only and answers for its whole span |
| ActivityStream.Due | internal/activity/delivery.go:44-53 | the oldest marked minute before `next` is chosen before anything new |
| ActivityStream.SpannedMinuteIsCovered | internal/activity/delivery.go:60-62 | every instant of a minute reported aligned follows a positive clock observation by at most 45 s, with none missing in between |
| ActivityRing.Gather | internal/activity/delivery.go:74-90 | a report takes from its slot exactly what the ring holds for its minute, and nothing from another minute's slot; its dropped number is the saturated sum of what was passed in, what the slot counted and one per clamped value |
| ActivityStream.ClearMark | internal/activity/delivery.go:74-76 | a report clears the mark of its own minute and no other, and the ring still equals the log |
| ActivityCollector.Collector.SetEnabled | internal/activity/activity.go:74-86 | disabling forgets the whole history; enabling keeps it; the invariant holds either way |
| ActivityCollector.Collector.Record | internal/activity/activity.go:98-145 | a record is ignored, refused as too old, or appended to the log that the ring stands for; it marks its minute if that was reported, and a marked minute whose slot it takes is missed; what is delivered or pending never changes |
| ActivityCollector.Collector.Tally | internal/activity/activity.go:129-144 | the in-place update of a minute is the reference step of the log |
| ActivityCollector.Collector.Read | internal/activity/delivery.go:23-109 | follows the stop-and-wait protocol; a fresh report is complete if and only if its minute began after the boot did, no clock trouble is in force and nothing was lost; it has no refused record in its minute, is exact as above, is aligned if and only if the clock was watched throughout and is trusted, and repairs the oldest marked minute first; after a gap of three minutes or more `next` and the span end two minutes behind the present minute, after a correction `next` stays, and otherwise it moves on by one minute |
| ActivityCollector.Collector.Ack | internal/activity/delivery.go:132-143 | only the pending report of this boot can be released, and only once |
| ActivityCollector.Collector.AlignClock | internal/activity/delivery.go:113-125 | the lease stands for the longest unbroken chain of positive observations, and there is none without it |
| ActivityRelay.TrailIsOrderedAndStable | internal/agent/account_activity.go:95-103 | what was settled followed by what is durable never steps back within a boot and stream and never holds two versions of one report |
| ActivityRelay.TrailIsGapFree | internal/agent/account_activity.go:95-110 | per boot and stream the settled and durable numbers form a prefix 1..n without a gap |
| ActivityRelay.AppendIsSound | internal/agent/account_activity.go:104-109 | appending a report its collector still holds keeps the relay's invariant |
| ActivityRelay.ReadIsSound | internal/agent/account_activity.go:120-128 | a read of either collector keeps the invariant, registers what it returns under an identity of its own and offers it |
| ActivityRelay.DeliveryIsSound | internal/agent/account_activity.go:135-150 | the invariant holds both while the file still has the delivered report and after it is dropped |
| ActivityRelay.NothingAcknowledgedIsLost | internal/agent/account_activity.go:47-48 | at any instant a report acknowledged to its collector is in the file, was acknowledged by the Controller or was discarded when the audit was switched off, and two posts under one identity are the same report |
| ActivityRelay.TakenWasAnswered | internal/agent/account_activity.go:140-145 | in every reachable state each report that counts as taken has a reply of its own number that accepted it, or refused it for good as expired, disabled or of a removed subject |
| ActivityRelay.DiscardIsSound | internal/agent/account_activity.go:153-159 | throwing the file away leaves the trail, and with it every promise about numbers and posts, as it was |
| ActivityRelay.Relay.Save | internal/agent/account_activity.go:71-83 | a save leaves the old list or the new one, and the new one if it reports success; it fails only on a list over the limit or a setback |
| ActivityRelay.Relay.Acknowledge | internal/agent/account_activity.go:123-129 | only a durable report is acknowledged, whether or not the acknowledgement arrives; success means it reached exactly the collector of its stream, and it fails only on a setback |
| ActivityRelay.Relay.Accept | internal/agent/account_activity.go:84-110 | persist precedes acknowledge at every crash point, a report is not stored twice, the identity-conflict error cannot occur, and it fails only on a full file or a setback |
| ActivityRelay.Relay.SendHead | internal/agent/account_activity.go:135-149 | for every reply: unless it repeats the report's number and accepts it, or is terminal for one of the three known reasons, what is settled and taken and the file are unchanged; with such a reply the report counts as taken, and the file drops it unless the save goes wrong |
| ActivityRelay.Relay.Send | internal/agent/account_activity.go:134-150 | a pass without a setback delivers the first eight reports in order and leaves exactly the rest |
| ActivityRelay.Relay.TakeFromKernel | internal/agent/account_activity.go:120-126 | at most one report joins the list; without a setback and with room the file holds it and the kernel's collector holds nothing back |
| ActivityRelay.Relay.TakeFromSsh | internal/agent/account_activity.go:127-132 | the same for the Agent's own collector, which leaves the kernel's alone |
| ActivityRelay.Relay.TakeIn | internal/agent/account_activity.go:120-132 | the two in turn: without a setback and with room the file holds everything both collectors had frozen |
| ActivityRelay.Relay.Discard | internal/agent/account_activity.go:153-159 | with the audit off the whole file is discarded, or after a setback none of it |
| ActivityRelay.Relay.CollectAndReport | internal/agent/account_activity.go:49-152 | the invariant survives every mix of lost replies, failed saves, refusals, kernel restarts and Agent crashes, and what is settled only grows; with the audit on nothing is discarded and at most eight reports go, with it off nothing is posted or acknowledged; without a setback, even from a full file, eight reports or all there were are settled and the file has room again, and the round succeeds unless it started without room |
| ActivityPipeline.AccountedMinuteIsKept | internal/agent/account_activity.go:47-48 | every minute a collector has passed in a boot is answered for by a report that is in the durable file, taken, discarded or still pending |
| SshQuota.AddTrafficKeepsSums | internal/agent/ssh_inbounds.go:1760-1778 | counting keeps the period's usage equal to the sum of the user's counters |
| SshQuota.AddTrafficIsExact | internal/agent/ssh_inbounds.go:1760-1778 | bytes count once on the counter and once on its period, in their own direction, and nowhere else; none or negative ones do not count |
| SshQuota.AcknowledgeKeepsSums | internal/agent/ssh_inbounds.go:1780-1815 | any checkpoint, stale, repeated or foreign, keeps 0 <= acknowledged <= total and the sums, never lowers an acknowledged value, and changes nothing with the wrong period or epoch |
| SshQuota.AcknowledgeIsExact | internal/agent/ssh_inbounds.go:1780-1815 | a checkpoint of the counter's period and epoch raises each acknowledged value to the checkpoint, never above what was counted, never below zero or what it was; the period moves by the same differences; any other checkpoint changes nothing |
| SshQuota.AcknowledgeLowersUsage | internal/agent/ssh_inbounds.go:1801-1814 | the period's unacknowledged usage falls by exactly the two differences |
| SshQuota.FullCheckpointSettles | internal/agent/ssh_inbounds.go:1780-1822 | a checkpoint of the counter's own totals clears its outstanding bytes and lowers the shared usage by exactly that much |
| SshQuota.SharedUsageIsSumOfOutstanding | internal/agent/ssh_inbounds.go:1817-1847 | the shared unacknowledged usage is the sum of what each inbound has outstanding |
| SshQuota.RollKeepsSumsIff | internal/agent/ssh_inbounds.go:1597-1614 | under any policy, the first one included, the books balance if and only if the usage recorded for its period is what the counters go on with; for an unused period that means they were reset or empty |
| SshQuota.SetPolicyIsExact | internal/agent/ssh_inbounds.go:1597-1614 | installing a policy resets the counter and its epoch if and only if both periods are named, differ and the new one does not continue the old; usage already recorded stays |
| SshQuota.FirstPolicyLosesUsage | internal/agent/ssh_inbounds.go:1165-1169 | whatever is counted before the first policy is outstanding on the counter and missing from the period |
| SshQuota.ContinuedPeriodLosesUsage | internal/agent/ssh_inbounds.go:1600-1603 | whatever is counted in a period that the next one continues is missing from the next one |
| SshQuota.ReturnedPeriodKeepsOldUsage | internal/agent/ssh_inbounds.go:1600-1603 | a counter that comes back to an earlier period is at zero while the period still has its old usage |
| SshQuota.PeriodBalancesIff | internal/agent/ssh_inbounds.go:1597-1815 | in every reachable state with all counters on one period, its usage is their sum if and only if what they carried into it equals what earlier counters left in it |
| SshQuota.InstallKeepsBooks | internal/agent/ssh_inbounds.go:1597-1606 | every period stays the sum of what its counters put into it, those that moved on included, whatever policy is installed |
| SshCopyLoops.StepStaysWithinBound | internal/agent/ssh_inbounds.go:1576-1595 | every single load, add, store or stop of any loop or acknowledgement keeps the bound, and a passed check re-anchors it |
| SshCopyLoops.OvershootIsBounded | internal/agent/ssh_inbounds.go:1576-1595 | over every interleaving of the atomic operations of k copy loops and any acknowledgements, the usage and what passed loops may still add stay at or below the larger of the initial usage and cap - 1 + k transfers |
| SshCopyLoops.MeasureIsFair | internal/agent/ssh_inbounds.go:1839-1841 | a check whose four loads are spread over time understates the usage by no more than was posted since it began |
| SshCopyLoops.QuietBooksBalance | internal/agent/ssh_inbounds.go:1760-1815 | over every interleaving the counters equal the period plus what is on its way to it, so the books balance whenever nothing is |
| SshQuota.UserTraffic.Join | internal/agent/ssh_inbounds.go:985-996 | a new inbound starts at zero without a policy, and the books of every period hold |
| SshQuota.UserTraffic.Enter | internal/agent/ssh_inbounds.go:1154-1170 | an inbound that gets its policy before it counts anything leaves balanced books balanced |
| SshQuota.UserTraffic.AddBytes | internal/agent/ssh_inbounds.go:1760-1778 | the in-place count is the step AddTrafficIsExact and the sum lemmas are about, and the books of every period hold |
| SshQuota.UserTraffic.Settled | internal/agent/ssh_inbounds.go:1780-1815 | the in-place acknowledgement is the step AcknowledgeIsExact and the sum lemmas are about, and the books of every period hold |
| SshQuota.UserTraffic.Exceeded | internal/agent/ssh_inbounds.go:1738-1758 | the check compares baseline plus shared usage with the lower of limit and lease cap, and leaves what every period reads unchanged |
| SshQuota.QuotaExceededIff | internal/agent/ssh_inbounds.go:1738-1758 | a transfer is refused if and only if the Controller said so, or a limit is set and the baseline plus the unacknowledged usage reach it, or under an enforced lease reach the baseline plus the lease, a negative lease counting as none |
| SshQuota.UserTraffic.InstallPolicy | internal/agent/ssh_inbounds.go:1597-1606 | a counter is reset exactly on a change of period that is not its first and does not continue the old one, and the books of every period hold |
| BillingCalendar.DateFields | internal/agent/ssh_inbounds.go:1716-1731 | a date that exists reads back as written |
| BillingCalendar.YearStart | internal/agent/ssh_inbounds.go:1716-1731 | the first day of every year is 365 days a year and one for each leap day by the rule of 4, 100 and 400: the months are those of the Gregorian calendar |
| BillingCalendar.YearOfMonths | internal/agent/ssh_inbounds.go:1722-1731 | the twelve months have their lengths, and make up 365 or 366 days |
| BillingCalendar.ClampedDayExists | internal/agent/ssh_inbounds.go:1722-1731 | the clamp lands on the given day or on the last day of a shorter month |
| BillingCalendar.BoundaryFields | internal/agent/ssh_inbounds.go:1716-1720 | every anniversary boundary lies in its own month, on the anchor's day or the last of a shorter month, at the anchor's clock time, and boundary 0 is the anchor |
| BillingCalendar.BoundariesIncrease | internal/agent/ssh_inbounds.go:1716-1720 | boundaries strictly increase through short months and leap years |
| BillingCalendar.AnniversaryWindowContainsNow | internal/agent/ssh_inbounds.go:1703-1714 | from the anchor on the window is a pair of neighbouring boundaries around now |
| BillingCalendar.AnniversaryWindowsTile | internal/agent/ssh_inbounds.go:1703-1714 | all instants of a window agree on it and its end opens the next one |
| BillingCalendar.CalendarWindowsTile | internal/agent/ssh_inbounds.go:1689-1692 | calendar months contain now and adjoin |
| BillingCalendar.StepFromReset | internal/agent/ssh_inbounds.go:1695-1698 | AddDate from a reset reaches the neighbouring month if and only if that month has the day; otherwise it lands one month further |
| BillingCalendar.MonthDayWindowIsTrueIff | internal/agent/ssh_inbounds.go:1693-1700 | the month_day window is the one between the resets around now if and only if no step taken spills over a short month, and where the first step spills it starts after now |
| BillingCalendar.EarlyResetDaysAreExact | internal/agent/ssh_inbounds.go:1693-1700 | for reset days 1 to 28 the window is right, contains now and adjoins the next |
| BillingCalendar.MarchWindowIsInTheFuture | internal/agent/ssh_inbounds.go:1693-1697 | with reset day 31, on the first of March of any year the window lies wholly in the future |
| BillingCalendar.TrafficWindowContainsNowIff | internal/agent/ssh_inbounds.go:1665-1701 | over all modes, exactly when the window contains now |
| BillingCalendar.TrafficWindowIs | internal/agent/ssh_inbounds.go:1665-1701 | which window each mode bills by: calendar from the first of this month to the first of the next; anniversary between neighbouring boundaries on the anchor's day and time; never from the anchor to the last second of 9999; month_day between midnights of the clamped reset day in stated months, the ones around now if and only if no step spills over |
| BillingCalendar.MonthDayWindowIs | internal/agent/ssh_inbounds.go:1693-1700 | the exact start and end month of a month_day window, spills included |
| Watchdog.SameBuildRestartsAreSeparated | internal/agent/core_watchdog.go:223-240 | two binary-drift restarts for one build are separated by a sighting of a current build or a restart for another |
| Watchdog.NextAttemptIsDue | internal/agent/core_watchdog.go:61-74 | over every history, nothing is held back without an attempt since the last forgiveness; after the n-th attempt the next is allowed exactly 5, 15, 30 and 120 s later for n = 1, 2, 3 and from 4 on, and 120 s after one refused for its configuration |
| Watchdog.AttemptsAreCounted | internal/agent/core_watchdog.go:181-197 | the consecutive count is the number of restarts and refusals since the last forgiveness |
| Watchdog.UpWithoutBreak | internal/agent/core_watchdog.go:161-167 | stability counts from a restart that brought the kernel up, or from the first sighting after a break, with nothing but sightings since |
| Watchdog.AllowedRestartIsPaced | internal/agent/core_watchdog.go:61-74 | a restart the backoff allows keeps any five successive restarts at least two minutes apart |
| Watchdog.StableStretchForgives | internal/agent/core_watchdog.go:161-167 | two stable minutes may clear the backoff without losing the pace |
| Watchdog.CoreWatchdog.Restart | internal/agent/core_watchdog.go:264-318 | every ending of a restart schedules the next attempt as the history demands and keeps pace and latch |
| Watchdog.CoreWatchdog.RecoverRuntimeDrift | internal/agent/core_watchdog.go:202-221 | once the backoff is over it is an attempt: a restart if the configuration is valid, a refusal otherwise; during backoff nothing |
| Watchdog.CoreWatchdog.RecoverBinaryDrift | internal/agent/core_watchdog.go:233-262 | the same for an older build, at most once per installed build until it is seen serving |
| Watchdog.CoreWatchdog.RecoverStopped | internal/agent/core_watchdog.go:181-197 | the same for a stopped kernel, whose stability ends even during backoff; the count, the next attempt, the stability and the latch stay what the history of attempts says |
| Watchdog.CoreWatchdog.RefuseInvalid | internal/agent/core_watchdog.go:189-195 | an invalid configuration is never restarted into, counts as an attempt and holds the next one back for two minutes |
| Watchdog.CoreWatchdog.NoteRunning | internal/agent/core_watchdog.go:154-167 | a current build reopens the latch, and the past is forgiven if and only if the kernel has been up for two minutes without a break |
| Watchdog.CoreWatchdog.Check | internal/agent/core_watchdog.go:95-198 | over every run of checks with a clock that does not step back, pace and latch hold and each finding has exactly its response, stated by the history alone: a due finding with a valid configuration restarts, and nothing else does |
| SecuritySwitch.Switch.RemoveJournal | internal/agent/runtime_security.go:339-349 | without a journal the policy on disk is the last one a running kernel confirmed |
| SecuritySwitch.CommitWasSeen | internal/agent/runtime_security.go:381-386 | a policy took effect only on the report of a kernel that supports the switch and runs its mode; for the enhanced profile it has no new privileges, is not dumpable and writes no core files |
| SecuritySwitch.HardenedKernelPasses | internal/agent/runtime_security.go:381-386 | a kernel that has these properties passes the check, and under the standard profile its mode is enough |
| SecuritySwitch.Switch.Recover | internal/agent/runtime_security.go:390-435 | a finished recovery leaves the journalled policy, a kernel that confirmed it and no journal; every interruption leaves the journal's promise intact; without a setback it finishes if and only if there is no journal or its mode is a known one |
| SecuritySwitch.Switch.ApplyInPlace | internal/agent/runtime_security.go:296-304 | a policy written without a journal is one the running kernel already has |
| SecuritySwitch.Switch.ApplyWithRestart | internal/agent/runtime_security.go:296-350 | at every crash point the journal holds the policy from before, or the policy on disk is confirmed |
| SecuritySwitch.Switch.RollBack | internal/agent/runtime_security.go:319-343 | a verified rollback leaves the old policy, no journal and the kernel on the profile it ran before; without a further setback policy and kernel are restored, and it is verified if and only if that profile is the policy's own |
| SecuritySwitch.DriftedKernelCannotRollBack | internal/agent/runtime_security.go:305-338 | a switch whose new profile is not confirmed, under a kernel that was not on the policy's profile: policy and kernel are restored and it still ends unresolved with its journal |
| SecuritySwitch.Switch.Apply | internal/agent/runtime_security.go:258-350 | for every set of failing steps: success means the new policy on disk, no journal and a kernel that has the profile, which for the enhanced one is spelled out; nothing else ever counts as committed; without a setback it succeeds if and only if the kernel supports profiles and any journal found is legible; if only the confirmation fails, the old policy and profile are back, and that counts as a rollback if and only if the kernel ran it before |
| SealedStorage.SealThenOpen | internal/agent/runtime_security_storage.go:44-77 | what can be sealed opens to the same text |
| SealedStorage.OpensIff | internal/agent/runtime_security_storage.go:61-98 | a sealed file opens if and only if it is protected and sealed under the present key for its own name; a plain one unless it is protected and the marker or a policy other than the standard one demands sealing |
| SealedStorage.SealsIff | internal/agent/runtime_security_storage.go:44-60 | a protected file is sealed for its name wherever there is a key, and its write is refused if and only if a key is missing but sealing is demanded |
| SealedStorage.SwappedFileIsRefused | internal/agent/runtime_security_storage.go:61-77 | a sealed file put in the place of another is not taken for it |
| SealedStorage.RequiredMeansSealed | internal/agent/runtime_security_storage.go:61-98 | once plaintext is refused, every protected file that reads is sealed under the present key |
| SealedStorage.RefusalKeepsReadableIff | internal/agent/runtime_security_storage.go:61-67 | refusing plaintext keeps every file readable if and only if every protected file is sealed |
| SealedStorage.Store.Write | internal/agent/runtime_security_storage.go:44-60 | a write keeps every file readable, whether or not it goes through |
| SealedStorage.Store.Read | internal/agent/runtime_security_storage.go:61-77 | every file reads as the text it is meant to hold |
| SealedStorage.Store.EnsureKey | internal/agent/runtime_security_storage.go:102-133 | a key is created only while no file depends on one |
| SealedStorage.Store.SealAll | internal/agent/runtime_security_storage.go:134-145 | each step of the migration leaves all files readable; at the end all are sealed |
| SealedStorage.Store.Enable | internal/agent/runtime_security_storage.go:99-147 | at every stopping point all plaintexts survive; success means the marker and everything sealed; a second run changes only the nonces; without a failed read or write it is refused only when the key is missing and sealing is required |
| SealedStorage.Store.Adopt | internal/agent/runtime_security.go:283-302 | adopting either policy keeps every file readable at every stopping point, since the enhanced one is written only after everything is sealed |
| ReleaseInstall.Installer.Preserve | internal/agent/self_update.go:727-752 | the old file is linked or a name is reserved for it, and exactly which failing operation prevents it and what it leaves |
| ReleaseInstall.Installer.CommitOne | internal/agent/self_update.go:764-778 | one target is switched, or everything about it is as it was, by link and by rename, and exactly which failing operation prevents it |
| ReleaseInstall.Installer.Restore | internal/agent/self_update.go:780-788 | every switched target returns to its old content or absence |
| ReleaseInstall.Installer.Commit | internal/agent/self_update.go:754-762 | all targets are switched or none, and none exactly if the failing operation is one that stops the switch |
| ReleaseInstall.Installer.Cleanup | internal/agent/self_update.go:876-885 | cleanup never touches a target and leaves exactly the sidecars whose removal fails |
| ReleaseInstall.Installer.Stage | internal/agent/self_update.go:690-705 | staging never touches a target, succeeds unless the failing operation is one that stops it, and otherwise says where each file stands |
| ReleaseInstall.Installer.Install | internal/agent/self_update.go:680-712 | under one failing operation: every target is new if and only if it is not one that stops the install, otherwise every target is as before, and a sidecar survives if and only if it is one of three kinds |
| ReleaseInstall.SecondDirectoryFails | internal/agent/self_update.go:690-697 | a run in which a directory that cannot be made leaves the stage file of an earlier one behind |
| ConnectionAudit.BucketMoves | internal/agent/connection_audit.go:228-238 | a bucket moves the total of its own identity only, by the change in its active count |
| ConnectionAudit.SameIdentityIff | internal/agent/connection_audit.go:481-487 | two buckets share an identity if and only if they are of one user with the same device, or without any device from the same source, spaces around either ignored |
| ConnectionAudit.TrimStrips | internal/agent/connection_audit.go:481-487 | what is compared begins and ends with something else than a space, and only spaces are gone |
| ConnectionAudit.SessionOpens | internal/agent/connection_audit.go:214-263 | opening keeps each bucket's active count equal to its unfinished sessions |
| ConnectionAudit.SessionCloses | internal/agent/connection_audit.go:381-394 | closing finds a positive count on a bucket of its own generation, or no bucket at all |
| ConnectionAudit.BucketDrained | internal/agent/connection_audit.go:433-475 | draining a bucket disturbs neither session counts nor identity totals |
| ConnectionAudit.StartKeepsPeaks | internal/agent/connection_audit.go:233-240 | a start raises the true peak of its identity exactly if the new total exceeds it, and its bucket shows it |
| ConnectionAudit.Accumulator.NextGeneration | internal/agent/activity_collection.go:49-57 | a new generation starts with empty tables that older sessions cannot reach |
| ConnectionAudit.Accumulator.SetEnabled | internal/agent/connection_audit.go:159-184 | switching off starts a new generation; switching on keeps the tables |
| ConnectionAudit.Accumulator.SetCollectionPolicy | internal/agent/activity_collection.go:38-57 | only a valid, newer and different policy starts a new generation |
| ConnectionAudit.Accumulator.StartSession | internal/agent/connection_audit.go:191-263 | a session is admitted exactly if allowed and there is room among 2048 buckets; its bucket, and no other, has one more active session and start and at least the identity's new total as peak; identity totals stay the sum over buckets, and the largest peak among an identity's buckets stays the true peak of its total since the last drain |
| ConnectionAudit.Accumulator.Finish | internal/agent/connection_audit.go:303-311 | finishing counts once, as one session less and one end more on its bucket, and never touches a bucket of another generation |
| ConnectionAudit.Accumulator.End | internal/agent/connection_audit.go:381-418 | the bucket loses one active session and counts one end, the identity total falls with it, an identity has an entry only while its total is positive, and peaks stay |
| ConnectionAudit.Accumulator.DrainBucket | internal/agent/connection_audit.go:433-475 | a bucket's starts are reported once with its peak, the bucket goes exactly if it has no live session, and otherwise its peak starts again at the identity's total |
| ConnectionAudit.Accumulator.Drain | internal/agent/connection_audit.go:420-479 | the items are exactly one per bucket with a start or a live session, with its key, starts, ends, peak and live sessions; drained plus current starts equal admitted sessions in the generation; reported, lost and current ends equal the ends counted; exactly the buckets of live sessions remain, and the present totals become the true peaks |
| ConnectionAudit.NoEndIsLostIff | internal/agent/connection_audit.go:438-457 | a drain loses no end if and only if every bucket that counted one had a start since the last drain or still has a session |
| ConnectionAudit.EndAfterDrainIsLost | internal/agent/connection_audit.go:438-457 | a run in which a session that outlives a drain and ends before the next is never reported as closed |
| Presence.KeptStaysInOrder | internal/agent/presence.go:103-115 | dropping expired events adds nothing and keeps the order |
| Presence.KeptAreRecent | internal/agent/presence.go:103-115 | exactly the events observed within the last five minutes are kept, each as often as it was there; one whose time does not parse is not |
| Presence.ChunksAreFull | internal/agent/presence.go:83-98 | a message has the first 500 events or all that are left, the rest follows, and drops are told once |
| Presence.ArrivalKeepsLine | internal/agent/presence.go:83-98 | a message that is delivered, or refused and left afloat, keeps delivered and waiting events in line |
| Presence.StrayKeepsLine | internal/agent/agent.go:1194-1217 | a refused message that goes out at any later time keeps the line, and every step back stays a repeat if and only if each event of it that is behind was received before |
| Presence.OnePollerKeepsOrder | internal/agent/presence.go:52-142 | in every reachable state without overlapping pollers delivered numbers strictly increase; if no refused message came belated, every step back in what was received is a repeat, and received numbers increase if and only if nothing was received twice |
| Presence.OneEventPerNumber | internal/agent/presence.go:225-236 | in every reachable state two events with one number are the same event |
| Presence.OverlapReorders | internal/agent/agent.go:1366-1385 | a run of two overlapping pollers that delivers a lower number after a higher one |
| Presence.StrayRepeats | internal/agent/agent.go:1194-1217 | a run in which a message whose write failed had gone out and is received twice |
| Presence.BelatedStray | internal/agent/agent.go:1194-1217 | a run in which a refused message goes out after its copy expired and a later event was received |
| Presence.Sender.NextNumber | internal/agent/presence.go:225-236 | a number is the clock if that is beyond the last one, and otherwise one more than the last, so it is beyond every earlier one even if the clock steps back |
| Presence.Sender.Number | internal/agent/presence.go:61-65 | a fresh event is numbered beyond everything numbered so far, whichever poller it belongs to |
| Presence.Sender.DropExpired | internal/agent/presence.go:103-115 | every event is kept or counted as expired |
| Presence.Sender.Collect | internal/agent/presence.go:52-75 | waiting events come first, expired ones are counted, and nothing is lost uncounted |
| Presence.Sender.Write | internal/agent/presence.go:83-98 | one message of at most 500 events, with the drops once; delivered numbers go on increasing if and only if the message is in order and continues them |
| Presence.Sender.Arrive | internal/agent/agent.go:1194-1217 | whenever a refused message goes out, everything stays conserved and known, and the order is kept exactly under the stated condition |
| Presence.Sender.Discard | internal/agent/presence.go:144-148 | with the audit off all that waits is thrown away and accounted for |
| Presence.Sender.Requeue | internal/agent/presence.go:125-142 | undelivered events go ahead of whatever waits, at most 4096 of the newest wait, and the rest are counted as lost |
| Presence.Sender.Send | internal/agent/presence.go:80-101 | a prefix is delivered in order, the refused rest goes ahead of what waited, and it fails exactly if a write failed |
| Presence.Sender.Poll | internal/agent/presence.go:52-142 | over every pattern of failed writes and every interleaving of pollers, drained events plus reported drops equal delivered events and drops, discarded ones, waiting ones and those in a poller's hands |
| UdpGateway.MarshalThenRead | internal/agent/ssh_udpgw.go:266-337 | reading undoes marshalling whatever follows on the stream, up to the unmapped address and its flag |
| UdpGateway.FrameBytes | internal/agent/ssh_udpgw.go:307-337 | a frame byte by byte: size and connection number low byte first, the flags with only the IPv6 digit replaced, the address, the port high byte first, the payload; it exists if and only if there is a destination with a port and it fits |
| UdpGateway.ReadOutcome | internal/agent/ssh_udpgw.go:266-278 | a stream holds nothing whole while its two size bytes, low byte first, or the bytes they announce are missing, a malformed frame if the size is below three, and otherwise a packet of that size |
| UdpGateway.PacketOutcome | internal/agent/ssh_udpgw.go:279-305 | each field of a frame by its bytes, the port high byte first; it is malformed if and only if it is no keepalive and its address and port do not fit or the port is zero |
| UdpGateway.StreamRoundTrip | internal/agent/ssh_udpgw.go:266-337 | concatenated frames decode to the same frames, in order |
| UdpGateway.ReadThenMarshalIff | internal/agent/ssh_udpgw.go:266-337 | marshalling what was read restores the very bytes if and only if no IPv4 address came in IPv6 form |
| UdpGateway.MarshalFrame | internal/agent/ssh_udpgw.go:307-337 | the buffer filled by offset is the frame the round trip is about, and the errors are the same |
| UdpGateway.Sink.WriteAll | internal/agent/ssh_udpgw.go:339-351 | over any partial writes all of the data arrives in order, or a prefix of it and an error, the error exactly if a write was refused |
| RelayFraming.EncodingsParse | internal/agent/outbound_relay.go:41-77 | a stream of written datagrams parses to the same datagrams |
| RelayFraming.EncodedBytes | internal/agent/outbound_relay.go:62-77 | the length goes first, high byte before low byte, and then the datagram |
| RelayFraming.CutFrameParses | internal/agent/outbound_relay.go:41-77 | a frame cut anywhere parses as nothing after the datagrams before it, and a whole one as its datagram |
| RelayFraming.FramedReader.Read | internal/agent/outbound_relay.go:41-60 | the next datagram comes out whole or stays in place if the buffer is too small |
| RelayFraming.FramedReader.ReadMany | internal/agent/outbound_relay.go:41-60 | for any buffer sizes the datagrams come out in order, none lost, none split |
| RelayFraming.WriteDatagram | internal/agent/outbound_relay.go:62-77 | a datagram is framed if and only if its size is legal and no write was refused; one of illegal size leaves the stream alone |
| RelayFraming.WriteMany | internal/agent/outbound_relay.go:62-77 | everything written without error parses back with its boundaries; after a refused write the reader finds the same or one whole datagram more |
| OperationalConfig.VaryingInboundsStripAlike | internal/agent/core_runtime.go:210-226 | inbounds that differ only in users of declared tags strip alike |
| OperationalConfig.VaryingOutboundsStripAlike | internal/agent/core_runtime.go:241-254 | selectors that differ only in users strip alike |
| OperationalConfig.VaryingMetadataKeptAlikeIff | internal/authorization/identity.go:5-25 | metadata that differ in pushed members, quota state and limits of runtime users reach the digest alike if and only if both sides or neither name a runtime user, or no foreign limit carries an authorization key; rate limits may be absent or malformed on either side |
| OperationalConfig.RuntimeUsersDoNotShowIff | internal/agent/core_runtime.go:160-255 | two configurations that differ only in runtime users and pushed metadata have the same hashed form if and only if both or neither name such a user, or no foreign user limit carries an authorization key |
| OperationalConfig.SameDigestIff | internal/agent/core_runtime.go:160-255 | two configurations have the same hashed form if and only if they agree in every field but the users of declared inbounds and their selectors, in all metadata but the two members pushed to the kernel and the rate limits, and in the identities their remaining rate limits bind; metadata that are no object are hashed as they are |
| OperationalConfig.InboundStripsAlikeIff | internal/agent/core_runtime.go:210-226 | stripping takes the users of a declared inbound and nothing else |
| OperationalConfig.OutboundStripsAlikeIff | internal/agent/core_runtime.go:241-254 | stripping takes the users of a selector of a declared inbound and nothing else |
| OperationalConfig.SelectsIff | internal/agent/core_runtime.go:241-254 | the selector of an inbound is the user-selector outbound with its name |
| OperationalConfig.TextsAre | internal/agent/core_runtime.go:199-205 | the declared tags are the non-empty texts of the list |
| OperationalConfig.NamesAre | internal/agent/core_runtime.go:210-226 | the runtime users are the named users of declared inbounds |
| OperationalConfig.IdentityHas | internal/authorization/identity.go:27-35 | a rate limit binds a credential by its key and the six fields that identify it, as they are |
| OperationalConfig.FirstUserShows | internal/agent/core_runtime.go:227-240 | the first user on a declared inbound changes the hashed form if and only if the other user's limit carries an authorization key |
| OperationalConfig.PassInbounds | internal/agent/core_runtime.go:210-226 | one pass gathers all names on declared inbounds and strips exactly those inbounds |
| OperationalConfig.StripRuntimeUserFields | internal/agent/core_runtime.go:190-255 | the loops compute the stripping the comparison is about |
| OperationalConfig.InstalledKeys | internal/authorization/identity.go:8-20 | whatever the walking order, exactly the entries with an authorization key are kept, reduced to their identity |
| OperationalConfig.RetainInstalledKeys | internal/authorization/identity.go:5-25 | the in-place rebuild of the rate limits is the reduction the comparison is about |
| OperationalConfig.NormalizeOperationalCoreConfig | internal/agent/core_runtime.go:177-187 | stripping, reduction and removal of pushed members give the hashed form the comparison is about |

## Left out

- Bind: grouping of addresses into /24 and /56 networks; an identity here carries its group as text or none.
- Snapshot: the non-destructive view of the same three slots.
- Byte counts across an audit drain, which go with the ends that a drain loses, and presence counts across a generation switch: the code does not conserve them.
- The local roll-over of an expired traffic policy by the clock: the period is fixed within a theorem, and a change of period is installed explicitly.
- Counters without a shared usage record, which only tests construct.
- Payload times, durations and the expiry of presence refreshes in audit buckets: they do not interact with the counts.
- More than one failing file operation in a single install.
- removeStaleReleaseSidecars: installs start here without sidecars; targets of one install are taken as distinct paths, and hard links as copies because an installed file is never written in place.
- The steps before recovery in a security switch (revision checks and the desired-state file): one-branch checks.
- SecuritySwitch.Switch.Apply: a busy lock, a missing restart command, an unsupported platform, a failed binary check or storage step all count as one kind of setback.
- Stealth encryption, JSON text and SHA-256: taken as reversible or injective layers around the values modelled here.
- Byte budgets of a report and of the pending file: exceeding one counts as a setback, since sizes in bytes are not modelled.
- Boot identifiers are random; a repeated one counts as a failed read.
- Zone names of IPv6 addresses, zones with daylight saving, and audit keys whose text parts contain a NUL.
- OperationalConfig models the decoded tree on values; the source deletes keys in place, and no part of a decoded tree is shared.
- Loss of power between a rename and its directory sync.
