# Vörsight, modelled and proved in Dafny

Vörsight watches Windows machines: an agent samples the active window, a service on the machine keeps time,
enforces access hours and uploads files, and a server stores sessions and shows reports. This project models
the parts whose correctness is not obvious from reading one function, and proves what they promise.

- **Activity accounting.** `ActivityCoordinator` turns samples into segments, `ActivitySessions` folds segments
  into session rows, `Analytics` (with `HourBuckets`, `IntervalMerge`, `Measure`) splits rows at clock hours and
  merges overlaps, `UsageChart` and `MergeActivities` aggregate the same rows for the client, and
  `ActivityPipeline` says what holds from the first sample to both screens.
- **Framed IPC.** `BinaryIO`, `PipeMessages` and `PipeFraming`: the binary message, its length-prefixed frames,
  and their reassembly from arbitrary partial reads. String prefixes are unsigned LEB128 numbers, section 7.6 of
  the DWARF 5 standard.
- **Access schedule.** `AccessControl` has the three queries of the weekly schedule, `ScheduleEnforcement` the
  polling loop that warns and acts, and the start and stop of that loop as interleaved steps.
- **Incremental stores.** `Uptime`, `AuditDedupe` and `UploadQueue` against their batch or full-history meaning.
- **Registration.** `MachineService` (server) and `ServerConnection` (client) as a two-party protocol, and
  `Adoption`, the settings a machine starts with.
- **Screenshots.** `Screenshots` has the cursor pagination.

`Runs` and `Sequences` hold what several parts share: maximal runs of linked neighbours, stable sorting, sums.

## How to read it

Methods follow the source's loops and field updates; each is tied to a specification function or states its
result outright, and the lemmas are about that specification. Clocks are parameters, one `now` per step. Local
time has a fixed offset, so every hour has 3,600,000 ms; the browser's clock may be any number of whole hours ahead
of the server's. Strings on the wire are bytes. Every asynchronous handler is one atomic step, except where a module
splits it into several (`UploadQueue`, and the stop of the enforcement loop in `ScheduleEnforcement`). Every lemma
carries `{:induction false}`: it is proved by its body alone.

Where the source and its comments disagree the code is followed:

- `AccessControlExtensions.cs:93` says seven days, the loop makes eight passes. The eighth is needed when today's
  only window has already opened (`AccessControl.EightPassesSuffice`).
- `ScheduleManager.cs:287` speaks of a 60 second warning; the call passes 0.
- `analytics.ts:17` calls the rows non-overlapping. That holds for rows built from one agent
  (`ActivityPipeline.SessionsInOrder`); the merge is proved for all rows.

Some things the code does not do, each with a proof of exactly when it does:

- What the chart shows for an hour, after its cap, equals what analytics counts if and only if the sessions do not
  overlap in that hour or fill it, when none of them ends after now; in general the measure must also be at most an
  hour (`UsageChart.ShownExactIff`, `UsageChart.ChartAgainstAnalytics`). Two equal rows within an hour show the
  difference (`UsageChart.OverlapShowsMore`).
- For rows with distinct ids the activity list is idempotent if and only if, in the sorted input, no two runs start at
  the same timestamp (`MergeActivities.IdempotentIffDistinctStarts`); two entries of one timestamp with different keys
  are not merged the same way twice (`MergeActivities.TieIsNotIdempotent`).
- A message reaches the service if and only if it serializes to at most 10 MiB (`PipeFraming.AgentToService`). A
  message cut short is rejected if and only if more than payload bytes are missing; otherwise it is accepted with the
  shorter payload (`PipeMessages.CutAcceptedIffInPayload`). A connection is served if and only if its id is free and
  the whole handshake has arrived when the service reads for the first time; otherwise it is turned away, even when
  the rest is on its way (`PipeFraming.NamedPipeServer.HandleClient`).
- The time remaining is kept if and only if access goes on at each moment of it at which some window of the day ends
  or a day begins (`AccessControl.PromiseIffNoGap`, `AccessControl.PromiseIffEndsInside`).
- The announced next access is right if and only if a well-formed window is among those that open next, when all
  starts are times of day (`AccessControl.TimeUntilAccessExactIff`): a window that crosses midnight never allows
  access, yet is announced (`AccessControl.InvertedIsAnnounced`). A start outside its day can even be announced too
  late (`AccessControl.StartBeyondDayIsTooLate`); for every schedule at all an answer is right if and only if it is the
  next opening of the windows that ever open (`AccessControl.RightIffNextOpening`).
- The uptime file is the earlier file and the batch of all heartbeats when nothing fails (`Uptime.FileIsBatch`). When
  saves and reads may fail it is the batch of what was saved, and a save over an unreadable file forgets what was
  before its group (`Uptime.FileIsSavedBatch`).
- Two enforcement loops are never alive together if and only if no start takes effect while a stop is waiting for the
  loop it cancelled (`ScheduleEnforcement.AloneIffNoEarlyStart`); the flag is cleared before that wait, so it can
  happen (`ScheduleEnforcement.StartDuringStop`). What `EnforceSchedules` promises holds for each loop by itself.
- The dedupe window agrees with the full history for all events if and only if the clock does not come back within
  five seconds of a moment it had left by more (`AuditDedupe.AgreesIffSteady`); under any clock
  `AuditDedupe.DuplicateIffKept` says which events are duplicates.
- Two audit events share a hash if and only if they have the same id, user and second, for ids without underscores
  (`AuditDedupe.SameHashIffSameEvent`); with one they can be confused (`AuditDedupe.UnderscoreConfuses`).
- The `k`-th accepted file belongs to the `k`-th receive of the upload loop, and is lost if and only if that receive
  was given up after five seconds, before or after the file reached it (`UploadQueue.EachReceiveDecides`,
  `UploadQueue.LostIffSomeEventLosesIt`).
- Registration leaves accepted credentials if and only if the canonical id does not differ from the client's only
  in case (`ServerConnection.RegisteredIsAccepted`), and one recovery suffices if and only if the server does not know
  the machine under such an id (`ServerConnection.OneRecoverySuffices`); otherwise no run that leaves the spellings
  alone ever connects (`ServerConnection.ClashNeverRecovers`).
- Unarchiving makes any machine active, also one that was never adopted (`MachineService.ArchiveRoundTrip`).
- Following screenshot cursors shows everything if and only if it fits on one page (`Screenshots.CompleteIffOnePage`).

## Model

| member | source | states |
|---|---|---|
| IntervalMerge.MergedDuration | node/server/src/routes/web/analytics.ts:77-100 | sorting and merging any non-empty list of intervals gives exactly the number of milliseconds covered by at least one of them |
| HourBuckets.PiecesPartition | node/server/src/routes/web/analytics.ts:51-69 | the pieces of a session start where it starts, follow one another without gap, end where it ends, and each lies in one clock hour |
| HourBuckets.BucketCovers | node/server/src/routes/web/analytics.ts:51-69 | the bucket of an hour covers an instant iff some session does and the instant falls in that hour of the day |
| LocalClock.HourOnClock | node/server/src/routes/web/analytics.ts:55-61 | the hour of the day is the one in which the local time since midnight lies |
| HourBuckets.HoursAddUp | node/server/src/routes/web/analytics.ts:72-103 | the merged milliseconds of the 24 hours add up to the measure of the union of all sessions |
| HourBuckets.ActiveInZone | node/server/src/routes/web/analytics.ts:55-61 | clocks that differ by whole hours count the same milliseconds, each under its own hour |
| HourBuckets.HourAtMostSixtyMinutes | node/server/src/routes/web/analytics.ts:51-103 | when all activity lies in one 24 hour window no hour exceeds 60 minutes, although two partial hours may share a bucket |
| Analytics.PushPieces | node/server/src/routes/web/analytics.ts:51-69 | the splitting loop terminates and adds to every bucket exactly the session's pieces of that hour |
| Analytics.Accumulate | node/server/src/routes/web/analytics.ts:34-70 | one pass yields the buckets, each app's summed duration, and the grand total |
| Analytics.Timeline | node/server/src/routes/web/analytics.ts:72-103 | each hour's active minutes are the rounded measure of the union within that hour |
| Analytics.FindActivities | node/server/src/routes/web/analytics.ts:19-27 | the query returns every row from the cutoff on, each as often as in the table, and no other, newest first |
| Analytics.AppTotalsMean | node/server/src/routes/web/analytics.ts:46-48 | the apps are those some session names, and Unknown for sessions that name none; each total adds up just these sessions |
| Analytics.TopApps | node/server/src/routes/web/analytics.ts:105-112 | at most five different apps with their rounded percentages, falling, and no app left out has a higher one |
| Analytics.Summarize | node/server/src/routes/web/analytics.ts:11-122 | the whole handler: what it answers is the summary of any list of exactly the rows that start at or after the second 24 hours before now: timeline, total hours, top apps and last activity |
| Analytics.TimelineAtMostSixty | node/server/src/routes/web/analytics.ts:11-103 | when no selected session ends after now, the query's own cutoff keeps every hourly measure within an hour and every active-minutes figure at 60 or less |
| UsageChart.AddSession | node/client/src/features/schedule/Usage24HourChart.tsx:50-67 | the chart's splitting loop adds to each hour the session's hours in it |
| UsageChart.LoadUsage | node/client/src/features/schedule/Usage24HourChart.tsx:38-73 | usage of every hour is the sum over sessions, capped at one |
| UsageChart.ChartAddsUp | node/client/src/features/schedule/Usage24HourChart.tsx:45-68 | before the cap the 24 hours hold the full length of every session, no more and no less |
| UsageChart.SumsExactIffDisjoint | node/client/src/features/schedule/Usage24HourChart.tsx:45-68 | before the cap the chart's sums equal the union measures in every hour iff no two sessions overlap |
| UsageChart.ShownExactIff | node/client/src/features/schedule/Usage24HourChart.tsx:45-73 | for any sessions, what is shown for an hour after the cap is at least the union measure iff that is at most an hour, and equals it iff moreover the hour's pieces are disjoint or the hour is full |
| UsageChart.ChartAgainstAnalytics | node/client/src/features/schedule/Usage24HourChart.tsx:33-73 | over the same table, with no row ending after now, and with the browser any whole hours ahead of the server, the chart never shows less for an hour than analytics counts, and the same iff the rows do not overlap in that hour or fill it |
| UsageChart.OverlapShowsMore | node/client/src/features/schedule/Usage24HourChart.tsx:70-73 | two equal rows within an hour show more than the union, up to the cap: every such input |
| UsageChart.CapNeverFires | node/client/src/features/schedule/Usage24HourChart.tsx:70-73 | for disjoint rows that do not end after now the cap changes nothing and the chart shows the union measure |
| UsageChart.TotalDurationIsUnionIffDisjoint | node/server/src/routes/web/analytics.ts:41-103 | the summary's total duration equals the sum of the hourly measures iff the rows are disjoint |
| ActivitySessions.ActivityTables.OnSocketActivity | node/server/src/websocket/socketHandler.ts:320-404 | inactive machines change nothing; otherwise the raw heartbeat is stored and a most recent session is extended or a new one created |
| ActivitySessions.ActivityTables.OnHttpActivity | node/server/src/routes/machine/activity.ts:11-99 | the same step for point heartbeats, with the defaults for a missing time and ping interval |
| ActivitySessions.AnyStream | node/server/src/websocket/socketHandler.ts:358-404 | for any stream and any choice among equally recent rows: end is start plus duration, heartbeats add up to reports, and a row lasts at most its reports plus 20 s for each that joined it |
| ActivitySessions.IncrementalIsBatch | node/server/src/websocket/socketHandler.ts:358-404 | for an ordered, non-overlapping stream the table is the grouping of the whole stream into maximal runs, and its rows follow one another |
| ActivityCoordinator.Coordinator.UpdateActivity | dotnet/Vorsight.Service/Monitoring/ActivityCoordinator.cs:49-100 | one sample: the new tracker state, the snapshot, and the finished segment when connected and longer than zero |
| ActivityCoordinator.SentIsOrdered | dotnet/Vorsight.Service/Monitoring/ActivityCoordinator.cs:49-91 | for non-decreasing samples all segments sent have positive length, are in order and do not overlap, under any pattern of connections |
| ActivityCoordinator.SentTiles | dotnet/Vorsight.Service/Monitoring/ActivityCoordinator.cs:49-91 | while always connected the segments tile the time from the first sample to the last window change |
| ActivityCoordinator.SentIsBatch | dotnet/Vorsight.Service/Monitoring/ActivityCoordinator.cs:49-91 | the segments sent are those of the batch view: samples cut into maximal spans on one window, one report per finished span, with its process, its user and the connection at its end |
| ActivityPipeline.SessionsInOrder | node/server/src/websocket/socketHandler.ts:355-404 | sessions built from one agent's samples are positive, ordered and pairwise disjoint under any pattern of connections |
| ActivityPipeline.ConnectedTotal | node/server/src/websocket/socketHandler.ts:355-404 | while always connected the session lengths sum to last window change minus first sample |
| ActivityPipeline.ReportsAgree | node/client/src/features/schedule/Usage24HourChart.tsx:38-73 | from samples up to now to screens: what the chart shows for every hour, on a clock any whole hours ahead, is what analytics counts and, in rounded minutes, what analytics shows, and the grand total is the sum of the hours |
| MergeActivities.MergeSequentialActivities | node/client/src/features/activity/utils/mergeActivities.ts:8-36 | the loop returns the combined maximal runs of the sorted list, reversed |
| MergeActivities.CombineAllAt | node/client/src/features/activity/utils/mergeActivities.ts:17-32 | each entry is the first entry of its run with the run's total duration |
| MergeActivities.DurationConserved | node/client/src/features/activity/utils/mergeActivities.ts:8-36 | total duration is conserved |
| MergeActivities.NeighboursDiffer | node/client/src/features/activity/utils/mergeActivities.ts:19-32 | neighbouring entries differ in process or window |
| MergeActivities.MembersShareKey | node/client/src/features/activity/utils/mergeActivities.ts:19-22 | every activity merged into an entry has its process and its window |
| MergeActivities.NewestFirst | node/client/src/features/activity/utils/mergeActivities.ts:11-35 | the returned entries are in falling order of time |
| MergeActivities.IdempotentIffDistinctStarts | node/client/src/features/activity/utils/mergeActivities.ts:8-36 | for rows with distinct ids merging twice is merging once iff no two runs of the sorted input start at the same timestamp |
| MergeActivities.TieIsNotIdempotent | node/client/src/features/activity/utils/mergeActivities.ts:8-36 | two entries of one timestamp with different keys: merging twice is not merging once |
| MergeActivities.IdempotentForDistinctTimestamps | node/client/src/features/activity/utils/mergeActivities.ts:8-36 | with distinct timestamps the function is idempotent |
| Runs.RunsAreMaximal | node/client/src/features/activity/utils/mergeActivities.ts:19-32 | the runs spell the list, are linked inside and nowhere linked across a cut |
| Runs.MaximalRunsUnique | node/client/src/features/activity/utils/mergeActivities.ts:19-32 | a list can be cut into maximal runs in one way only |
| BinaryIO.SevenBitRoundTrip | dotnet/Vorsight.Contracts/IPC/PipeMessage.cs:88-91 | the 7-bit length prefix is read back as written, whatever follows, for every 32-bit length |
| BinaryIO.SevenBitCanonical | dotnet/Vorsight.Contracts/IPC/PipeMessage.cs:88-91 | the prefix is the shortest one, only its last byte has the high bit clear, and its groups spell the length |
| BinaryIO.SevenBitFails | dotnet/Vorsight.Contracts/IPC/PipeMessage.cs:122-126 | exactly when a length prefix cannot be read, and that one that can has 32 bits |
| BinaryIO.StringFails | dotnet/Vorsight.Contracts/IPC/PipeMessage.cs:122-126 | exactly when the string behind a length prefix cannot be read |
| BinaryIO.KnownEncodings | dotnet/Vorsight.Contracts/IPC/PipeMessage.cs:87-91 | little-endian byte order, two's complement, and the published LEB128 examples |
| BinaryIO.BinaryWriter.WriteString | dotnet/Vorsight.Contracts/IPC/PipeMessage.cs:88-91 | a string is written as its prefix, seven bits at a time, and its bytes |
| BinaryIO.BinaryReader.ReadString | dotnet/Vorsight.Contracts/IPC/PipeMessage.cs:122-126 | reading a string consumes exactly prefix and bytes, or reports why it cannot |
| PipeMessages.Serialize | dotnet/Vorsight.Contracts/IPC/PipeMessage.cs:81-107 | the sequence of writes produces the message's encoding |
| PipeMessages.Deserialize | dotnet/Vorsight.Contracts/IPC/PipeMessage.cs:112-151 | the sequence of reads decodes the first `length` bytes, and every failed read is an error |
| PipeMessages.RoundTrip | dotnet/Vorsight.Contracts/IPC/PipeMessage.cs:81-151 | decoding an encoding gives the normal form and leaves exactly the bytes behind it |
| PipeMessages.ByteLayout | dotnet/Vorsight.Contracts/IPC/PipeMessage.cs:81-107 | every small message byte by byte: the order of the fields, their widths and byte order, and their length prefixes |
| PipeMessages.NormalIdempotent | dotnet/Vorsight.Contracts/IPC/PipeMessage.cs:91-142 | the normal form has no empty SID or payload and no absent metadata, says the same otherwise, is idempotent and has the same encoding |
| PipeMessages.EncodeInjective | dotnet/Vorsight.Contracts/IPC/PipeMessage.cs:81-107 | two messages have the same bytes iff they have the same normal form |
| PipeMessages.EncodePrefixFree | dotnet/Vorsight.Contracts/IPC/PipeMessage.cs:81-107 | no encoding is a proper prefix of another |
| PipeMessages.CutAcceptedIffInPayload | dotnet/Vorsight.Contracts/IPC/PipeMessage.cs:112-151 | a proper prefix of an encoding is rejected, unless only payload bytes are missing: then it is accepted with the payload that arrived |
| PipeMessages.CreationTimeDecides | dotnet/Vorsight.Contracts/IPC/PipeMessage.cs:112-151 | bytes that can be read otherwise are a message iff the creation time lies between the years 1 and 9999 |
| PipeFraming.PipeClient.SendMessage | dotnet/Vorsight.Agent/Services/IpcService.cs:49-68 | the agent writes handshake, length and body |
| PipeFraming.PipeStream.Fill | dotnet/Vorsight.Infrastructure/IPC/NamedPipeServer.cs:331-376 | the read loop ends with the buffer filled by the next bytes of the stream, or because the stream is too short |
| PipeFraming.NamedPipeServer.ReadHeader | dotnet/Vorsight.Infrastructure/IPC/NamedPipeServer.cs:318-348 | the length prefix, completed over partial reads; end of stream before or inside it is told apart |
| PipeFraming.NamedPipeServer.ReadBody | dotnet/Vorsight.Infrastructure/IPC/NamedPipeServer.cs:360-376 | the body, over any partial reads, or the cut |
| PipeFraming.NamedPipeServer.MessageLoop | dotnet/Vorsight.Infrastructure/IPC/NamedPipeServer.cs:313-413 | however the stream is cut into reads, exactly its messages are raised, in order, and the loop stops for the stream's own reason |
| PipeFraming.NamedPipeServer.HandleClient | dotnet/Vorsight.Infrastructure/IPC/NamedPipeServer.cs:278-432 | a whole connection: turned away when the handshake is not wholly on hand at the first read; otherwise served iff its id is free, with the messages of the stream raised, and the session set afterwards in each case |
| PipeFraming.ReceiveFrames | dotnet/Vorsight.Infrastructure/IPC/NamedPipeServer.cs:313-413 | any list of framed messages of at most 10 MiB is received as sent, and the stream ends cleanly |
| PipeFraming.ConnectionDelivers | dotnet/Vorsight.Infrastructure/IPC/NamedPipeServer.cs:278-432 | for any session id and any list of messages that fit, a whole connection with a free id raises exactly them, in order, under that id, and ends cleanly; with a taken id it raises nothing and the id is forgotten |
| PipeFraming.Deliver | dotnet/Vorsight.Agent/Services/IpcService.cs:55-68 | the same from the bytes written to the events raised, whatever reads the pipe makes of the bytes behind the handshake |
| PipeFraming.ReceiveBadLength | dotnet/Vorsight.Infrastructure/IPC/NamedPipeServer.cs:350-358 | a length that is not positive or over 10 MiB ends the connection and nothing behind it is read |
| PipeFraming.ReceiveBody | dotnet/Vorsight.Infrastructure/IPC/NamedPipeServer.cs:360-413 | a frame of any other length is read as a whole, and is a message or ends the connection |
| PipeFraming.ReceiveCut | dotnet/Vorsight.Infrastructure/IPC/NamedPipeServer.cs:328-376 | a stream cut inside its last frame delivers all messages before it and stops for the reason of the cut |
| PipeFraming.AgentToService | dotnet/Vorsight.Agent/Services/IpcService.cs:55-68 | what one send writes carries the session id and is delivered iff the message fits |
| AccessControl.RemainingIffAllowed | dotnet/Vorsight.Infrastructure/Extensions/AccessControlExtensions.cs:46-77 | time remaining has a value iff access is allowed, for every schedule, parseable or not, and is positive |
| AccessControl.AllowedOnCalendar | dotnet/Vorsight.Infrastructure/Extensions/AccessControlExtensions.cs:12-44 | access is allowed iff the schedule is enabled and some window for that day of the calendar has both times and contains the time of day |
| AccessControl.RemainingOnCalendar | dotnet/Vorsight.Infrastructure/Extensions/AccessControlExtensions.cs:62-71 | the time remaining ends with the first window of the schedule that is for the day and contains the time of day |
| AccessControl.OneWindow | dotnet/Vorsight.Infrastructure/Extensions/AccessControlExtensions.cs:12-145 | a single window, for each day of the week and at every moment: when access is allowed, for how long, and how long until then |
| AccessControl.RemainingIsAllowed | dotnet/Vorsight.Infrastructure/Extensions/AccessControlExtensions.cs:62-71 | access stays allowed at every instant of the reported time, when the first window that matches now has a start that parses and an end by midnight, whatever the others are |
| AccessControl.PromiseIffNoGap | dotnet/Vorsight.Infrastructure/Extensions/AccessControlExtensions.cs:46-77 | for every schedule: access stays allowed for the reported time iff it is allowed at each moment of it at which a parseable window of that day ends or a day begins |
| AccessControl.PromiseIffEndsInside | dotnet/Vorsight.Infrastructure/Extensions/AccessControlExtensions.cs:62-71 | for a reported end by midnight: iff every parseable window of today that ends in the reported time ends inside another one |
| AccessControl.UnparseableStartOverstates | dotnet/Vorsight.Infrastructure/Extensions/AccessControlExtensions.cs:62-71 | with an unparseable start the reported time can reach past the end of access: a concrete schedule |
| AccessControl.FirstStartAfter | dotnet/Vorsight.Infrastructure/Extensions/AccessControlExtensions.cs:99-115 | the inner loop over the sorted starts finds the earliest one after now, if there is one |
| AccessControl.GetTimeUntilAccess | dotnet/Vorsight.Infrastructure/Extensions/AccessControlExtensions.cs:79-123 | null when disabled, allowed or without schedule; otherwise the answer of the first pass that has one |
| AccessControl.EightPassesSuffice | dotnet/Vorsight.Infrastructure/Extensions/AccessControlExtensions.cs:93-117 | a non-empty schedule whose starts are times of day always gets an answer within the eight passes |
| AccessControl.AnswerIsEarliestNextStart | dotnet/Vorsight.Infrastructure/Extensions/AccessControlExtensions.cs:93-117 | the answer of the passes is the earliest next start of all windows, parseable, inverted or not |
| AccessControl.NoAccessBefore | dotnet/Vorsight.Infrastructure/Extensions/AccessControlExtensions.cs:79-123 | between now and the reported moment access is allowed at no instant |
| AccessControl.NeverTooLate | dotnet/Vorsight.Infrastructure/Extensions/AccessControlExtensions.cs:79-123 | denied now, the answer exists, is at most seven days, and no instant before it allows access, even with inverted and unparseable windows |
| AccessControl.TimeUntilAccessExactIff | dotnet/Vorsight.Infrastructure/Extensions/AccessControlExtensions.cs:79-123 | denied now, the answer exists, is at most seven days, no earlier instant allows access, and access is allowed then iff a well-formed window is among those that open next |
| AccessControl.TimeUntilAccessExact | dotnet/Vorsight.Infrastructure/Extensions/AccessControlExtensions.cs:79-123 | so for well-formed windows the answer is exact |
| AccessControl.RightIffNextOpening | dotnet/Vorsight.Infrastructure/Extensions/AccessControlExtensions.cs:12-123 | for every schedule and any answer: denied now, the answer is right about the whole future iff it is the next opening of the windows that ever open |
| AccessControl.StartBeyondDayIsTooLate | dotnet/Vorsight.Infrastructure/Extensions/AccessControlExtensions.cs:93-117 | a start outside its day can be announced after another window has opened: a concrete schedule |
| AccessControl.InvertedIsAnnounced | dotnet/Vorsight.Infrastructure/Extensions/AccessControlExtensions.cs:79-123 | yet such a window is announced as the next access: a concrete schedule |
| ScheduleEnforcement.EnforceSchedules | dotnet/Vorsight.Infrastructure/Scheduling/ScheduleManager.cs:233-320 | over every run: warnings are more than a minute apart, every pass with under five minutes left warns or follows a warning at most a minute old, and the action is attempted exactly when enabled and denied |
| ScheduleEnforcement.WarnedBeforeViolation | dotnet/Vorsight.Infrastructure/Scheduling/ScheduleManager.cs:251-301 | when a pass acts and the one before, under five minutes earlier, still allowed access with the time remaining right, that one warned or followed a recent warning |
| ScheduleEnforcement.ScheduleManager.StartEnforcement | dotnet/Vorsight.Infrastructure/Scheduling/ScheduleManager.cs:196-209 | a start adds an active loop unless the flag is set |
| ScheduleEnforcement.ScheduleManager.StopEnforcement | dotnet/Vorsight.Infrastructure/Scheduling/ScheduleManager.cs:211-231 | up to its await, a stop cancels the current loop, clears the flag and waits for that loop |
| ScheduleEnforcement.OneUncancelledLoop | dotnet/Vorsight.Infrastructure/Scheduling/ScheduleManager.cs:196-231 | over every run of starts, stops and endings the flag is set iff there is a loop that is not cancelled, and there is at most one, the last |
| ScheduleEnforcement.AloneIffNoEarlyStart | dotnet/Vorsight.Infrastructure/Scheduling/ScheduleManager.cs:196-231 | two loops are never alive together iff no start takes effect while a cancelled loop has not ended |
| ScheduleEnforcement.StartDuringStop | dotnet/Vorsight.Infrastructure/Scheduling/ScheduleManager.cs:218-226 | a start during the wait begins a second loop: a concrete run |
| ScheduleEnforcement.ScheduleManager.UpdateScheduleFromSettings | dotnet/Vorsight.Infrastructure/Scheduling/ScheduleManager.cs:322-342 | an enabled schedule starts the loop, a disabled one stops it, and the flag follows; null settings change nothing |
| ScheduleEnforcement.ScheduleManager.DeleteSchedule | dotnet/Vorsight.Infrastructure/Scheduling/ScheduleManager.cs:106-125 | the schedule stays, disabled, and the loop is cancelled |
| Uptime.UptimeMonitor.RecordHeartbeat | dotnet/Vorsight.Infrastructure/Uptime/UptimeMonitor.cs:29-56 | one heartbeat: memory, and the file when the save succeeds, over what could be read of it |
| Uptime.UptimeMonitor.AppendInterval | dotnet/Vorsight.Infrastructure/Uptime/UptimeMonitor.cs:58-70 | the interval is appended to what could be read, or nothing happens when the save fails |
| Uptime.UptimeMonitor.UpdateLastIntervalEnd | dotnet/Vorsight.Infrastructure/Uptime/UptimeMonitor.cs:72-107 | of what could be read, the last interval is extended, or a new one is added when memory has drifted from the file |
| Uptime.FileIsBatch | dotnet/Vorsight.Infrastructure/Uptime/UptimeMonitor.cs:29-107 | with successful reads and saves the file is the earlier file plus the heartbeats cut at gaps over five minutes, under any clock, and the drift branch is never taken |
| Uptime.FileIsSavedBatch | dotnet/Vorsight.Infrastructure/Uptime/UptimeMonitor.cs:29-130 | whatever reads and saves fail, under a strictly increasing clock the file is the earlier file plus, for each group with a saved beat, the interval from its first beat to its last saved one, starting over at a group that was saved over an unreadable file |
| Uptime.RunsAppend | dotnet/Vorsight.Infrastructure/Uptime/UptimeMonitor.cs:29-107 | several process runs append their batch views one after the other |
| Uptime.SavedIsCurrent | dotnet/Vorsight.Infrastructure/Uptime/UptimeMonitor.cs:29-107 | after any successful save the last interval is exactly what memory holds, whatever failed before |
| Uptime.NoStartTwice | dotnet/Vorsight.Infrastructure/Uptime/UptimeMonitor.cs:29-107 | with a strictly increasing clock no start appears twice even when saves fail |
| AuditDedupe.AuditManager.IsDuplicate | dotnet/Vorsight.Infrastructure/Audit/AuditManager.cs:294-319 | the eviction loop and the lookup compute one step of the window |
| AuditDedupe.SameHashIffSameEvent | dotnet/Vorsight.Infrastructure/Audit/AuditManager.cs:284-292 | for ids without underscores and timestamps of one length two events share a hash iff they have the same id, user and second |
| AuditDedupe.UnderscoreConfuses | dotnet/Vorsight.Infrastructure/Audit/AuditManager.cs:284-292 | with an underscore in an id two different events share a hash: a concrete pair |
| AuditDedupe.DuplicateIffTwinKept | dotnet/Vorsight.Infrastructure/Audit/AuditManager.cs:284-319 | under any clock an event is dropped iff an accepted one with the same id, user and second was at most five seconds old at every look since |
| AuditDedupe.DuplicateIffKept | dotnet/Vorsight.Infrastructure/Audit/AuditManager.cs:294-319 | under any clock an event is a duplicate iff some earlier event with its hash was accepted and has been at most five seconds old at every look since |
| AuditDedupe.DiffersIffAllEvicted | dotnet/Vorsight.Infrastructure/Audit/AuditManager.cs:294-319 | an answer differs from the full history iff the history has the event but each accepted one had been found too old in between |
| AuditDedupe.DuplicateIffInHistory | dotnet/Vorsight.Infrastructure/Audit/AuditManager.cs:294-319 | under a steady clock an event is a duplicate iff an accepted event with its hash occurred at most five seconds earlier |
| AuditDedupe.DuplicateIffRecentlyAccepted | dotnet/Vorsight.Infrastructure/Audit/AuditManager.cs:294-319 | with a clock that never goes back an event is a duplicate iff an accepted event with its hash occurred at most five seconds earlier |
| AuditDedupe.AgreesIffSteady | dotnet/Vorsight.Infrastructure/Audit/AuditManager.cs:294-319 | the answers agree with the full history for all events at given moments iff these moments are steady |
| AuditDedupe.AcceptedFarApart | dotnet/Vorsight.Infrastructure/Audit/AuditManager.cs:294-319 | between two accepted events with one hash the first was found over five seconds old, and under a steady clock they are more than five seconds apart |
| AuditDedupe.ClockGoingBackMissesDuplicate | dotnet/Vorsight.Infrastructure/Audit/AuditManager.cs:301-309 | a clock that goes back lets a repetition through: a concrete run |
| UploadQueue.UploadQueueProcessor.EnqueueFile | dotnet/Vorsight.Service/Storage/UploadQueueProcessor.cs:90-108 | tracked paths change nothing; a new one is tracked and goes to a pending receive or into the queue |
| UploadQueue.UploadQueueProcessor.BeginReceive | dotnet/Vorsight.Service/Storage/UploadQueueProcessor.cs:161-165 | a receive takes the head of the queue or waits |
| UploadQueue.UploadQueueProcessor.EndReceive | dotnet/Vorsight.Service/Storage/UploadQueueProcessor.cs:165-181 | the item is taken, or the timeout wins and the receive is left behind |
| UploadQueue.UploadQueueProcessor.FinishUpload | dotnet/Vorsight.Service/Storage/UploadQueueProcessor.cs:264-292 | success, failure and cancellation all remove the path from the tracking set |
| UploadQueue.EveryRunKeepsInv | dotnet/Vorsight.Service/Storage/UploadQueueProcessor.cs:90-292 | under any interleaving the queue has no duplicates and the tracking set is the disjoint union of queued, in-flight, lost and refused paths |
| UploadQueue.EnqueueTracks | dotnet/Vorsight.Service/Storage/UploadQueueProcessor.cs:90-108 | a path is tracked after any enqueue, also one the queue refuses, and then is in one of the places; a tracked path changes nothing |
| UploadQueue.LoopGoesRound | dotnet/Vorsight.Service/Storage/UploadQueueProcessor.cs:155-292 | a timeout always leaves the loop idle, an item taken is processed until its upload ends, and an idle loop starts the next receive |
| UploadQueue.FinishedCanBeQueuedAgain | dotnet/Vorsight.Service/Storage/UploadQueueProcessor.cs:264-292 | a finished path can be enqueued again and reaches the queue unless an abandoned receive waits |
| UploadQueue.LostIffSomeEventLosesIt | dotnet/Vorsight.Service/Storage/UploadQueueProcessor.cs:161-181 | over every run from any state, a path becomes lost iff it is newly enqueued while an abandoned receive waits, or the timeout wins after it was delivered |
| UploadQueue.EachReceiveDecides | dotnet/Vorsight.Service/Storage/UploadQueueProcessor.cs:90-181 | over every run the files taken are, in order, the accepted ones whose own receive, the k-th for the k-th file, was not given up, and the files lost are exactly those whose receive was; and every receive that was started has ended, except the current one |
| UploadQueue.LostForever | dotnet/Vorsight.Service/Storage/UploadQueueProcessor.cs:97-104 | a lost or refused path is never processed and can never be enqueued again |
| UploadQueue.EachTimeoutCostsOneFile | dotnet/Vorsight.Service/Storage/UploadQueueProcessor.cs:161-179 | after n abandoned receives the next n new files are all lost |
| UploadQueue.FirstInFirstOut | dotnet/Vorsight.Service/Storage/UploadQueueProcessor.cs:90-181 | over every run, what was queued and what was accepted is handed to receives in that order, and the rest is still queued |
| MachineService.Server.Register | node/server/src/services/machineService.ts:31-87 | by id, else by name, else a new pending row; missing fields and a used key are errors |
| MachineService.Server.Adopt | node/server/src/services/machineService.ts:154-250 | the row becomes active under its display name and the initial settings are stored; unknown and active machines are errors |
| Adoption.AdoptedAllowsDaily | node/server/src/services/machineService.ts:193-238 | the settings stored at adoption allow access, on every day of the week, exactly between the start and end chosen, or their defaults, when both parse |
| Adoption.SwitchesDecide | node/server/src/services/machineService.ts:209-234 | what each switch of the adoption form turns on, and the defaults |
| MachineService.Server.Archive | node/server/src/services/machineService.ts:257-279 | the row becomes archived and the event is logged, or an error changes nothing |
| MachineService.Server.Unarchive | node/server/src/services/machineService.ts:281-303 | the row becomes active and the event is logged, or an error changes nothing |
| MachineService.Server.Connect | node/server/src/websocket/socketHandler.ts:154-226 | the credential check, its four answers, and what a welcome records |
| MachineService.RegisterKeeps | node/server/src/services/machineService.ts:31-87 | registration keeps ids and keys unique and in place, and the credentials it returns are a row |
| MachineService.RegisterChooses | node/server/src/services/machineService.ts:34-86 | the credentials returned are those of the row with the id, else of the first row with the name, else of a new row |
| MachineService.RegisterAddsPending | node/server/src/services/machineService.ts:31-87 | exactly an unknown id and name with a free key adds one row, pending, under the caller's id, names and the fresh key; any other answer leaves the table alone |
| MachineService.RegisterIdempotent | node/server/src/services/machineService.ts:31-87 | registering again returns the same credentials and changes nothing |
| MachineService.StatusChangesKeepKeys | node/server/src/services/machineService.ts:134-303 | adopt, archive, unarchive and update never change an id or a key |
| MachineService.StatusChangesOneRow | node/server/src/services/machineService.ts:154-303 | adopting sets status and display name of one row, archiving and unarchiving its status, and nothing else |
| MachineService.RenameChangesOneRow | node/server/src/services/machineService.ts:134-145 | a rename sets the names that are given, of one row |
| MachineService.AnswerMeans | node/server/src/websocket/socketHandler.ts:158-221 | each answer of the credential check in terms of the table |
| MachineService.Lifecycle | node/server/src/services/machineService.ts:154-303 | which status admits adopting, archiving and unarchiving, the status each success leaves, and that no other machine is touched |
| MachineService.ArchiveRoundTrip | node/server/src/services/machineService.ts:257-303 | unarchiving undoes archiving iff the machine was active before |
| ServerConnection.Connection.RegisterMachine | dotnet/Vorsight.Service/Server/ServerConnection.cs:270-326 | registration with its network failures, canonical id adoption and the saved file |
| ServerConnection.Connection.InitializeConnection | dotnet/Vorsight.Service/Server/ServerConnection.cs:133-177 | start-up from the stored credentials or by registering |
| ServerConnection.Connection.HandleCredentialFailure | dotnet/Vorsight.Service/Server/ServerConnection.cs:189-213 | delete, clear, register again, connect |
| ServerConnection.Connection.EnsureConnected | dotnet/Vorsight.Service/Server/ServerConnection.cs:215-268 | the watchdog registers when there is no key, repeats the handshake when not authenticated, and connects a socket that is down |
| ServerConnection.IgnoresCaseOnly | dotnet/Vorsight.Service/Server/ServerConnection.cs:296-308 | the comparison of ids is letter by letter, either case |
| ServerConnection.RegisteredIsAccepted | dotnet/Vorsight.Service/Server/ServerConnection.cs:289-315 | after an answered registration the server accepts what the client holds iff the canonical id does not differ from the client's only in case |
| ServerConnection.RegisterOutcome | dotnet/Vorsight.Service/Server/ServerConnection.cs:270-326 | what a registration does to table, client and file, by how it fares on the network and on the disk |
| ServerConnection.WatchdogWithKey | dotnet/Vorsight.Service/Server/ServerConnection.cs:240-267 | after a watchdog pass with a key the client is connected iff it was or the server accepts its credentials, whether the socket is up or down, and nothing else changes |
| ServerConnection.WatchdogWithoutKey | dotnet/Vorsight.Service/Server/ServerConnection.cs:215-267 | a pass without a key that can register ends connected iff there is no case clash, and one without an answer or a saved file does not |
| ServerConnection.StartFromStore | dotnet/Vorsight.Service/Server/ServerConnection.cs:133-177 | a start from stored credentials connects iff the server accepts them |
| ServerConnection.FirstStart | dotnet/Vorsight.Service/Server/ServerConnection.cs:133-177 | a first start that can register ends connected iff there is no case clash, and one without an answer or a saved file does not |
| ServerConnection.RecoveryForgets | dotnet/Vorsight.Service/Server/ServerConnection.cs:189-213 | a recovery that cannot delete the file changes nothing; any other forgets the old credentials, held and stored |
| ServerConnection.ActiveOnlyByOperators | node/server/src/services/machineService.ts:69-303 | over every run a machine becomes active only by being adopted or unarchived |
| ServerConnection.RunIsGood | dotnet/Vorsight.Service/Server/ServerConnection.cs:133-326 | in every later state of every run the credentials held and stored are a server record |
| ServerConnection.NextConnectSucceeds | node/server/src/websocket/socketHandler.ts:154-226 | after any such run the next connect is welcomed |
| ServerConnection.OneRecoverySuffices | dotnet/Vorsight.Service/Server/ServerConnection.cs:189-213 | from any state one recovery that reaches the server leaves the client connected, with stored and accepted credentials, iff the server does not know it by name under an id that differs only in case |
| ServerConnection.RecoveryIsGoodIffNoClash | dotnet/Vorsight.Service/Server/ServerConnection.cs:189-213 | however a recovery fares on the network it leaves no bad credentials behind, unless it was answered with such an id |
| ServerConnection.ClashNeverRecovers | dotnet/Vorsight.Service/Server/ServerConnection.cs:189-315 | with ids that differ only in case, over every run that leaves the spellings alone, the client never connects and no key is accepted under its id |
| ServerConnection.CaseClashNeverRecovers | dotnet/Vorsight.Service/Server/ServerConnection.cs:296-308 | for instance a concrete system on which recovery is a fixed point |
| Screenshots.GetPage | node/server/src/routes/web/screenshots.ts:11-59 | the page a cursor yields, its successor cursor and whether there is more |
| Screenshots.PageMeans | node/server/src/routes/web/screenshots.ts:16-59 | a page has at most the rows asked for, the next ones in order; there is more, and a cursor, iff rows remain behind it |
| Screenshots.FollowCursors | node/server/src/routes/web/screenshots.ts:16-59 | following cursors takes floor(n / (take + 1)) + 1 pages and shows exactly the rows that `Shown` keeps |
| Screenshots.ShownIffNotLastOfBlock | node/server/src/routes/web/screenshots.ts:46-53 | a row is shown iff its position is not of the form k (take + 1) + take |
| Screenshots.ShownInOrder | node/server/src/routes/web/screenshots.ts:18-25 | nothing is shown twice and the route's order is kept |
| Screenshots.CompleteIffOnePage | node/server/src/routes/web/screenshots.ts:46-53 | all rows are shown iff they fit on the first page |

## Left out

- `ServerConnection` logging, settings and telemetry calls.
- Rounding of floating point in the chart and the summary: usage is a real number, and minutes are rounded exactly.
- DST and time-zone changes, clocks in the first minute of the year 1, and dates within eight days of the year 9999.
- ActivityCoordinator.Coordinator.UpdateActivity: does not model the cast of a duration of 2^31 seconds or more to `int`, nor time stamps outside the range of `DateTimeOffset`.
- ActivityCoordinator.SentTiles: requires that no sample carries `DateTime.MinValue`, which the source uses as its mark for "not started".
- UTF-8 and JSON conversion: names, windows and metadata are byte or character sequences.
- PipeFraming.NamedPipeServer.HandleClient: one connection at a time; two connections with one session id are not interleaved, and cancellation of the service and a handler that throws are not modelled.
- AccessControl.AnswerIsEarliestNextStart: window starts must be times of day, because a start outside its day makes it false (`StartBeyondDayIsTooLate`).
- AccessControl.NoAccessBefore: the same, for the same reason.
- AccessControl.NeverTooLate: the same, for the same reason.
- AccessControl.TimeUntilAccessExactIff: the same; for other starts `RightIffNextOpening` is all that is said.
- UsageChart.ChartAgainstAnalytics: both reports are made at one moment, and the two clocks differ by whole hours.
- ActivityPipeline.ReportsAgree: both reports are made at one moment, and the two clocks differ by whole hours.
- ScheduleEnforcement.EnforceSchedules: the logoff and shutdown calls themselves, their results, and event handlers that throw; the several clock reads of one pass are one.
- Uptime.UptimeMonitor.RecordHeartbeat: a failed save leaves the file as it was; a half-written file counts as unreadable until the next save.
- UploadQueue.UploadQueueProcessor.EnqueueFile: an open queue; its completion and shutdown, and the upload and deletion of the file, are not modelled.
- MachineService.Server.Register: `findFirst` by name takes the first row in table order; the database leaves the order open.
- MachineService.Server.Connect: the socket's room and the broadcasts.
- ServerConnection.Connection.EnsureConnected: a connect that cannot reach the server changes nothing and needs no step.
- ActivitySessions.ActivityTables.OnHttpActivity: timestamps that are no date.
- Screenshots.GetPage: the rows are those the machine filter selects, in the order of the query; dates and links of the reply are left out.
- Screenshots.FollowCursors: the table does not change between pages, and `limit` is a natural number.
- UsageChart.LoadUsage: the shading of allowed hours (`isHourAllowed`).
- Windows interop, screen capture, perceptual hashes, Google Drive, OAuth, React components, retention jobs and status texts.
