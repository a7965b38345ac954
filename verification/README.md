# Observer, verified

Observer is a distributed cron monitor. Agents discover cron jobs, watch processes
and mail spools, buffer what they see in a local store and push it to a server.
The server records executions, queues remote commands for the agents, raises
alerts and computes failure statistics. This project models the parts of Observer
that keep state across steps or compute something that is not obvious from one
body, and proves what they keep and what they mean.

`dafny verify dfyconfig.toml` checks everything.

## How the model is built

* Functions and predicates specify; the source's loops and updating methods are
  Dafny methods and classes proved equal to those functions; the lemmas say what
  the functions mean.
* Concurrent protocols (outbox, command queue, remote runs, sessions and lockout)
  and long-lived ones (spool reading, monitoring, process tracking) are machines:
  a state, a `Step` type, a guard `Enabled` and a function `Next`. A `Run` is any
  list of enabled steps from the initial state, so a lemma about `After(steps)`
  is about every interleaving.
* SQL tables are maps and sequences, a statement is one step, and row locks taken
  with SKIP LOCKED are the rule that two open claims pick disjoint rows.
* Times are integers (microseconds in tables, nanoseconds in the session manager)
  and durations and averages are reals. Clocks never go back. UUIDs, tokens and
  digests are fresh or opaque integers.

| module | source |
|---|---|
| Islands, Recovery, RecoveryReport, Trends, TrendRows | apps/server/internal/repository/stats.go |
| Outbox, Reporter | apps/agent/internal/reporter/reporter.go, apps/agent/internal/state/store.go |
| CommandQueue, CommandService, Fleet | apps/server/internal/repository/command.go, apps/server/internal/service/command.go, apps/agent/internal/app/app.go |
| Mbox, MailSpool, MboxWriter, RegrownSpool | apps/agent/internal/observer/mailspool.go, the spool loop of apps/agent/internal/app/app.go |
| Matching, Tracker, Agent | apps/agent/internal/observer/process.go, the process scan of apps/agent/internal/app/app.go |
| Auth, AuthRuns | apps/server/internal/api/auth.go |
| Alerts, Hosts, Evaluator, Monitoring | apps/server/internal/alerting/evaluator.go, apps/server/internal/repository/alert.go, apps/server/internal/repository/host.go |
| Executions, JobStates | apps/server/internal/service/execution.go, apps/server/internal/repository/execution.go, apps/server/internal/repository/job.go |
| ExecutionFilter | apps/server/internal/repository/execution.go |
| Crontab, CrontabPrinter, CommandWords | apps/agent/internal/discovery/cron.go |
| Wrappers, Ordered, Text, Grouping | shared: options, finite sets in order, Go's `strings`, cutting at marked elements |

## What the proofs found

* A report can be lost. The server answers a batch with success even when an
  insert failed (apps/server/internal/service/execution.go:36-40), and the agent
  then deletes the event. `Outbox.NothingLost` therefore promises "pending or
  acknowledged". `Outbox.AckIsSafe` says exactly when an acknowledgement loses
  nothing: when each event of its batch is inserted now or was stored before.
  docs/agent.md:148-150 promises resilience to an unavailable server, and there
  `Outbox.NothingLost` holds; it does not mention failed inserts.
* A report can be stored twice, without any failure: flushes of the main loop and
  of command goroutines overlap, and executions have no key that would make the
  second insert harmless (`Outbox.OverlapStoresTwice`). `Outbox.StaysOnceIffSafe`
  says exactly when no interleaving of the flushes under way stores an event twice,
  `Outbox.SnapshotStaysOnce` exactly when one more flush may start, and
  `Outbox.UntouchedRunStoresOnce` that runs which start flushes only then never do.
* A cleared mailbox that has grown back to the saved offset loses mail, because
  clearing is only noticed when the file is shorter than the offset
  (apps/agent/internal/observer/mailspool.go:51-57). `MailSpool.ScanReadsUnread`
  says exactly when a scan starts where the saved offset stands, and
  `RegrownSpool.ScanIsComplete` that otherwise a mailbox of mails always loses some.
* Mail is collected twice when saving the offset fails, which the scan ignores
  (apps/agent/internal/app/app.go:395-397). `MailSpool.ScanRepeats` says exactly
  when a scan repeats mail.
* `consecutive_fail` is not a count of consecutive failures: it counts every failed
  or unknown execution of the last day. `JobStates.CountsAtLeastTrailing` says
  exactly when the two agree.
* A process that matches several jobs is attributed to whichever job the map
  iteration meets first. `Tracker.AttributionIsUnique`: the attributions do not
  depend on the order if and only if no process matches two jobs. Which PIDs are
  tracked and reported gone never does (`Tracker.OrderDoesNotMatter`).
* A stale-heartbeat alert can be raised for a host that is no longer silent: the
  evaluator judges the row it listed, and heartbeats may arrive before it gets to
  the host. `Monitoring.AlertOutlivesSilence` and `Monitoring.AlertMissesSilence`
  say exactly when an alert is wrong; `Monitoring.LateBeatIsAlerted` and
  `Monitoring.FirstBeatIsMissed` are such runs.
* Normalizing a command removes a redirection but not the stream number before it:
  `job 2>/log` becomes `job 2` (`CommandWords.NumberStays`).
* A mail body survives the mbox format exactly when none of its lines starts with
  ">From " and it is empty or its last line is not blank (`MboxWriter.BodySurvives`).

## Model

| member | source | states |
|---|---|---|
| Islands.SameIslandIffNoGap | apps/server/internal/repository/stats.go:158-176 | Two bad executions of a job get the same `rn - type_rn` exactly when every execution between them is bad, and the difference never falls with time: the grouping finds maximal runs. |
| Islands.IslandsAreRuns | apps/server/internal/repository/stats.go:158-186 | For every history, grouping by row-number difference gives the same runs as one left-to-right pass, with the same start, end and count and in the same order. |
| Islands.RunsCoverBadRows | apps/server/internal/repository/stats.go:177-186 | The counts of the scanned runs add up to the number of bad executions scanned. |
| Islands.CountsCoverBadRows | apps/server/internal/repository/stats.go:177-186 | The failure counts of all islands of a job add up to all its bad executions: none is lost or counted twice. |
| Recovery.QueryIsScan | apps/server/internal/repository/stats.go:157-214 | A row list satisfies the query (right rows, all rows, right order) if and only if it is the one computed by scanning every job and listing its episodes newest first. |
| Recovery.OrderIsUnique | apps/server/internal/repository/stats.go:209-213 | The ORDER BY leaves no freedom: two ordered results with the same rows are equal. |
| Recovery.JobEpisodesAreIslands | apps/server/internal/repository/stats.go:177-201 | The scanned episodes of a job are exactly its failure islands joined with their recovery. |
| Recovery.EpisodesAreStretches | apps/server/internal/repository/stats.go:157-207 | An episode is one of a job's if and only if it is a maximal stretch of bad executions, from its first to its last, with their number; it recovers at the first success after its end, and its recovery seconds run from its start to then. |
| Recovery.RowsAreStretches | apps/server/internal/repository/stats.go:157-214 | A row is in the query result if and only if its job exists, it has that job's host, and its episode is such a stretch. |
| Recovery.RecoveryMonotone | apps/server/internal/repository/stats.go:187-201 | A later episode never recovers before an earlier one, and is unrecovered if an earlier one is. |
| Recovery.UnrecoveredLead | apps/server/internal/repository/stats.go:187-213 | In the newest-first list the unrecovered episodes are a leading block and recovery times never increase behind it. |
| Recovery.NewestEpisode | apps/server/internal/repository/stats.go:177-213 | A job has an episode exactly when it has a bad execution, and its newest episode ends with its last bad execution. |
| RecoveryReport.GroupRows | apps/server/internal/repository/stats.go:219-252 | The row loop groups any row list by job, keeping episode order, first host and the order in which jobs first appear. |
| RecoveryReport.AverageRecovery | apps/server/internal/repository/stats.go:273-285 | The averaging loop divides the sum over the recovered episodes by their number and gives nothing when there is none. |
| RecoveryReport.Summaries | apps/server/internal/repository/stats.go:219-289 | Both loops together turn the rows into one summary per job, in job order. |
| RecoveryReport.ReportedJobs | apps/server/internal/repository/stats.go:157-289 | The report lists, by ascending id, exactly the known jobs that ever had a bad execution, each with its own host and its scanned episodes. |
| RecoveryReport.ReportIsScan | apps/server/internal/repository/stats.go:157-289 | Line i of the report is the summary of job i's scanned episodes, whatever the database holds. |
| RecoveryReport.SummaryMeaning | apps/server/internal/repository/stats.go:256-289 | `IsCurrentlyFailing` holds exactly when no success follows the job's last bad execution; otherwise every episode has recovered, all of them enter the average, and the last recovery is the first success after the last bad execution. |
| RecoveryReport.FailingMeaning | apps/server/internal/repository/stats.go:256-289 | A job is currently failing exactly when no success follows its last bad execution, then since the start of the stretch that ends there and with as many failures as that has; otherwise its last recovery is the first success after it. |
| RecoveryReport.AverageOfHistory | apps/server/internal/repository/stats.go:273-285 | The average times the number of recovered episodes is the sum of the times from each such episode's start to its recovery, and there is none when no episode has recovered. |
| RecoveryReport.AllHaveRecovered | apps/server/internal/repository/stats.go:256-285 | When a success follows the last bad execution every episode has recovered, so the average is over all of them. |
| Outbox.StepKeepsInv | apps/agent/internal/reporter/reporter.go:26-47 | Every step of any number of concurrent flushes keeps pending, saved, acknowledged and received events consistent. |
| Outbox.OnlyAckedLeave | apps/agent/internal/reporter/reporter.go:38-46 | An event leaves the bucket only after its batch was acknowledged, so events buffered during a flush survive it. |
| Outbox.NothingLost | apps/agent/internal/reporter/reporter.go:26-79 | Over every interleaving, with failed sends, lost acknowledgements and failed deletes, each saved event is still pending unchanged or was in a processed and acknowledged batch; the server receives only saved events. |
| Outbox.AckIsSafe | apps/server/internal/service/execution.go:25-52 | With nothing lost before, an acknowledgement loses nothing by any deletes that follow it if and only if each event of its batch is inserted now or was stored before. |
| Outbox.CoveredRunStores | apps/server/internal/service/execution.go:25-52 | Over every run whose acknowledgements meet that condition, each acknowledged event is stored and each saved one is pending or stored. |
| Outbox.FailedInsertLosesEvent | apps/server/internal/service/execution.go:36-40 | Without that condition an event can end neither pending nor stored: a concrete run. |
| Outbox.StaysOnceIffSafe | apps/agent/internal/reporter/reporter.go:26-47 | With nothing stored twice yet, no interleaving of all the flushes under way, with any inserts, lost acknowledgements and failed deletes, stores an event twice if and only if what is being sent is not stored yet and is sent by one flush only. |
| Outbox.SnapshotStaysOnce | apps/agent/internal/reporter/reporter.go:26-30 | Starting one more flush keeps that so if and only if no pending event of its agent is stored already or is being sent by another flush. |
| Outbox.UntouchedRunStoresOnce | apps/agent/internal/reporter/reporter.go:26-47 | Over every run whose flushes start under that condition, failed deletes and lost acknowledgements included, no event is stored twice; if its acknowledgements lose nothing, each saved event is pending or stored exactly once. |
| Outbox.OverlapStoresTwice | apps/agent/internal/app/app.go:365 | Two overlapping flushes store an event twice although nothing fails: a concrete run. |
| Reporter.Store.PendingExecutions | apps/agent/internal/state/store.go:118-131 | The snapshot lists every buffered event once, with its payload, and fails exactly if some entry does not decode. |
| Reporter.FlushExecutions | apps/agent/internal/reporter/reporter.go:26-47 | Unless the send was acknowledged and every entry decodes, every old entry stays unchanged; otherwise exactly those whose delete fails stay. Events that arrive meanwhile stay in every case. |
| Reporter.FlushMeaning | apps/agent/internal/reporter/reporter.go:26-47 | The function that specifies a flush has this property for every bucket, answer and set of arrivals and failing deletes. |
| Reporter.FlushIsRun | apps/agent/internal/reporter/reporter.go:26-47 | From every reachable state of the outbox, what the flush loop does to an agent's bucket is what a run of snapshot, arriving saves, answer and deletes does to it: with an acknowledgement exactly if the send went well and the snapshot is decodable and not empty, with a failed send exactly if it is sent in vain; other agents' buckets stay unchanged. |
| Reporter.ArrivalsSurvive | apps/agent/internal/reporter/reporter.go:43-45 | Deletes and saves of other ids commute: what was saved since the snapshot stays. |
| CommandQueue.ReturnedOnce | apps/server/internal/repository/command.go:34-58 | Over every run with overlapping claims, a command is returned by at most one claim. |
| CommandQueue.RankNeverFalls | apps/server/internal/repository/command.go:34-68 | Over every run no command disappears and its status rank (pending, dispatched, final) never falls. |
| CommandQueue.StatusIsHistory | apps/server/internal/repository/command.go:34-68 | Over every run a command has the status of its last completion; without one it is dispatched if some claim has returned it, else pending. |
| CommandQueue.SerialClaim | apps/server/internal/repository/command.go:34-58 | A claim that none overlaps takes at most its limit (ten for a non-positive one), fewer only if that leaves no pending command of its host, and leaves behind none older than one it took; it takes pending commands of its host only and nothing else changes. |
| CommandService.Queueable | apps/server/internal/service/command.go:24-32 | The jobs a request gets through: all before the first that is missing or of another host. |
| CommandService.Service.EnqueueRuns | apps/server/internal/service/command.go:22-47 | The request queues one pending command, with the job's hash, command and schedule, per job up to the first error, keeps those already queued, and reports that error; it succeeds exactly if every job exists, is the host's and is inserted. |
| CommandService.Service.Complete | apps/server/internal/service/command.go:53-59 | "success" stores success and "failed" failed in that one command, keeping its times where none are given; any other status is refused, and a refused or failed call changes nothing. |
| Fleet.StepKeepsInv | apps/agent/internal/app/app.go:288-370 | Every step of server, outboxes and command goroutines keeps: an unfinished run's command is dispatched, a finished one was completed by its own run, every run's report was saved. |
| Fleet.CompletedIsReported | apps/agent/internal/app/app.go:299-370 | Every command that is success or failed was completed by a run of it with that outcome; if that run's report write went well, whatever other writes failed, the report is pending on the agent or acknowledged by the server. |
| Fleet.RunsOnce | apps/agent/internal/app/app.go:288-297 | No command is run twice, whatever claims overlap. |
| Fleet.StatusPath | apps/server/internal/repository/command.go:34-68 | With only goroutines completing, a status moves from pending to dispatched and from there once to its final value, which never changes. |
| Fleet.CompletionNeverBlocked | apps/server/internal/repository/command.go:60-68 | The update that completes a delivered command never waits for a row lock of a claim. |
| Grouping.GroupsCut | apps/agent/internal/observer/mailspool.go:76-100 | The stretches cut out of a line list are that list from its first envelope line on, each starting with its only envelope line. |
| Grouping.BuildGroups | apps/agent/internal/observer/mailspool.go:76-100 | The one-pass loop with its current stretch and flag builds exactly the results of the cut, in order. |
| Mbox.EnvelopeIff | apps/agent/internal/observer/mailspool.go:102-110 | An envelope line is "From " followed by at least two words, and nothing else is one. |
| Mbox.CronSubjectIff | apps/agent/internal/observer/mailspool.go:185-204 | A subject is accepted, with a command and a user, if and only if it is "Cron " in any case, white space, the user in angle brackets, and a tail that is the command but for outer white space and not blank. |
| Mbox.MessageIff | apps/agent/internal/observer/mailspool.go:114-178 | A stretch of lines is a cron mail, with that command and user, if and only if its subject is such a subject. |
| Mbox.ParsedFrom | apps/agent/internal/observer/mailspool.go:76-100 | The mails of a text are exactly those its stretches give. |
| Mbox.HeaderEnd | apps/agent/internal/observer/mailspool.go:124-130 | The headers end at the first empty line. |
| Mbox.ReadHeaders | apps/agent/internal/observer/mailspool.go:121-143 | The header loop collects the headers of the lines before the first empty line, a later one winning, and finds where the body starts. |
| MboxWriter.HeaderMeaning | apps/agent/internal/observer/mailspool.go:121-143 | A header has the trimmed text behind the colon of the last line of its name, in any case and not continued, and there is none without such a line. |
| Mbox.CollectBody | apps/agent/internal/observer/mailspool.go:155-166 | The body loops drop trailing blank lines and undo ">From " quoting in place. |
| Mbox.BuildMessage | apps/agent/internal/observer/mailspool.go:114-178 | The message builder returns the cron mail of its lines, and nothing when there is no subject or it is not cron's. |
| Mbox.ParseMbox | apps/agent/internal/observer/mailspool.go:76-100 | Parsing a text returns its cron mails. |
| Mbox.TrailingLine | apps/agent/internal/observer/mailspool.go:114-178 | A final empty line, the trace of the last newline, changes no message. |
| Mbox.ParseConcat | apps/agent/internal/observer/mailspool.go:76-100 | For whole messages, parsing two pieces one after the other is parsing them together. |
| MailSpool.ReadNew | apps/agent/internal/observer/mailspool.go:32-72 | A read starts at the offset, or at the start if the file is shorter, and parses what arrives; nothing new, a failure to open, a failure to read and a short read each give the result the code gives. |
| MailSpool.FullRead | apps/agent/internal/observer/mailspool.go:64-72 | A read that goes well parses all there is from the offset on and moves the offset to the end. |
| MailSpool.ScanCollectsAll | apps/agent/internal/app/app.go:378-405 | However deliveries, scans, failed scans, failed offset writes and clearings interleave, each scan leaves collected every delivered mail once and the repeated ones again, and exactly the delivered mails in order if and only if none was repeated. |
| MailSpool.ScanRepeats | apps/agent/internal/app/app.go:390-400 | A scan adds the unread mails and nothing else if and only if no mail lies between what the saved offset stands for and how far the scans have read. |
| MailSpool.SavedRunsAreExact | apps/agent/internal/app/app.go:378-405 | Over every run in which the offsets are saved, nothing is repeated and each scan leaves collected exactly the delivered mails in order. |
| MailSpool.UnsavedOffsetRepeats | apps/agent/internal/app/app.go:395-397 | A run in which saving the offset fails once and the same mails are collected twice. |
| MailSpool.NeverCleared | apps/agent/internal/app/app.go:378-405 | If the spool is never cleared, the delivered mails are what one parse of the whole file returns. |
| MailSpool.ScanReadsUnread | apps/agent/internal/observer/mailspool.go:48-62 | A scan reads exactly the text behind what the saved offset stands for if and only if any clearing since shows in the size: empty, shorter than the offset, or offset zero. |
| RegrownSpool.CutMailbox | apps/agent/internal/observer/mailspool.go:76-100 | A mailbox of written mails with no hidden envelope lines, read from anywhere but its start, even inside a line, yields fewer mails than it holds. |
| RegrownSpool.ScanIsComplete | apps/agent/internal/observer/mailspool.go:51-62 | When everything read so far is behind the saved offset, a scan of such a mailbox leaves collected exactly the delivered mails if and only if any clearing shows in the size. |
| MailSpool.RegrownMailboxLosesMail | apps/agent/internal/observer/mailspool.go:51-57 | Otherwise mail is lost: a run after which a mailbox cleared and grown back to the offset yields nothing. |
| MboxWriter.SecondMailLost | apps/agent/internal/observer/mailspool.go:51-57 | Such a loss for every mail that comes twice with a clearing in between. |
| MboxWriter.SubjectParses | apps/agent/internal/observer/mailspool.go:185-204 | The subject cron writes parses back to its command and user. |
| MboxWriter.BodySurvives | apps/agent/internal/observer/mailspool.go:155-166 | A body comes back unchanged if and only if no line starts with ">From " and it is empty or its last line is not blank. |
| MboxWriter.RoundTrip | apps/agent/internal/observer/mailspool.go:76-204 | Any list of cron mails, with any other headers around the subject, written in the default format of Appendix A of RFC 4155 reads back as the same number of mails, and with every command, user and body equal if and only if every body is of that kind. |
| Matching.FirstMatch | apps/agent/internal/observer/process.go:70-86 | The inner loop finds a matching job whenever there is one, in any map order, with the confidence of that match. |
| Matching.MatchJobs | apps/agent/internal/observer/process.go:67-90 | The result has, for each process that matches some job and for no other, one match with a job it matches, in order. |
| Matching.MatchedAreMatching | apps/agent/internal/observer/process.go:67-99 | Whatever the map order, the matched PIDs are those of the processes matching some job. |
| Tracker.ScanTracksMatching | apps/agent/internal/app/app.go:176-271 | After every scan the tracked PIDs are exactly those matching some known job, and executions already open are left as they were. |
| Tracker.ScanKeepsInv | apps/agent/internal/app/app.go:176-271 | A scan keeps: records of open executions are running, all other detected ones partial, ids unique, and started events balance gone events plus open entries. |
| Tracker.ScanReportsGone | apps/agent/internal/app/app.go:236-267 | A scan reports the end of exactly the executions whose PID no longer matches, each once, in some order. |
| Tracker.ScanEvents | apps/agent/internal/app/app.go:196-266 | A scan adds one started event per execution it opens and then, for each PID gone, one end event with the hash, start and confidence of its open execution, finished at the scan, lasting from that start. |
| Tracker.ScanRecords | apps/agent/internal/app/app.go:208-254 | The record of each execution a scan closes says partial, with the fields it was opened with, its start, and the scan as finish; that of each open one says running. |
| Tracker.ScanOpens | apps/agent/internal/app/app.go:186-232 | An opened execution has the PID and creation time of a process seen, command and schedule of a known job whose first word its command line contains, confidence 0.95 if they are equal and 0.75 if not, and a started event that says so. |
| Tracker.ScanDescribesOpened | apps/agent/internal/app/app.go:186-232 | Every execution a scan opens carries the PID and start of a process it saw, a job that process matches, and a started event with the same content. |
| Tracker.ScanSettles | apps/agent/internal/app/app.go:236-267 | A scan closes each record at most once and never touches records of remote runs. |
| Tracker.OrderDoesNotMatter | apps/agent/internal/app/app.go:182-267 | Two scans of the same processes in different map orders track the same PIDs, keep the same open executions and report the same ones gone. |
| Tracker.AttributionIsUnique | apps/agent/internal/observer/process.go:67-90 | For every list of processes, the matching has one possible result over all map orders if and only if no process matches two jobs. |
| Tracker.AmbiguousMatching | apps/agent/internal/observer/process.go:67-90 | Wherever in the list a process matches two jobs, two results that differ in its attribution alone are possible. |
| Agent.Agent.OpenMatched | apps/agent/internal/app/app.go:183-233 | The first loop opens the unseen matches in order and returns every matched PID. |
| Agent.Agent.CloseMissing | apps/agent/internal/app/app.go:236-268 | The second loop, deleting from the map it ranges over, closes every PID not seen, each once. |
| Agent.Agent.RunProcessScan | apps/agent/internal/app/app.go:176-271 | A scan is the two loops on the matching; a failed process listing changes nothing. |
| Agent.RunsBalance | apps/agent/internal/app/app.go:176-271 | Over every run of scans, discoveries, remote runs and other events: started events are gone events plus open executions, and a detected record is running exactly while an open execution owns it, else partial. |
| Agent.PartialIsFinal | apps/agent/internal/app/app.go:236-267 | Over every run a detected record that became partial is never written again. |
| Agent.EndsHaveStarts | apps/agent/internal/app/app.go:196-266 | Over every run each reported end has an earlier reported start of the same job at the same time. |
| Auth.AuthManager.IsLockedOut | apps/server/internal/api/auth.go:128-143 | The check answers whether the lock is younger than five minutes and drops an expired one. |
| Auth.AuthManager.RecordFailure | apps/server/internal/api/auth.go:145-157 | One more failure, and a fresh lock time from the fifth on. |
| Auth.AuthManager.Login | apps/server/internal/api/auth.go:64-89 | A token is issued exactly when the address is not locked, the credentials match and the random source works; the maps change accordingly in every case. |
| Auth.AuthManager.IsSessionToken | apps/server/internal/api/auth.go:167-181 | The check accepts a stored token of at most 24 hours and deletes an older one. |
| Auth.AuthManager.Cleanup | apps/server/internal/api/auth.go:184-208 | A tick removes exactly the expired sessions and the stale attempt records, in any map order. |
| AuthRuns.ChecksAreExact | apps/server/internal/api/auth.go:84-98 | Over every interleaving of logins, logouts, checks and cleanup, a check says yes exactly when its token was issued and not logged out when read, and at most 24 hours old when judged. |
| AuthRuns.UninterruptedCheck | apps/server/internal/api/auth.go:167-181 | A check nothing interrupts answers from the issue and logout history alone, so lazy deletion and cleanup never show. |
| AuthRuns.FailuresBounded | apps/server/internal/api/auth.go:128-161 | With at most k undecided logins per address the failure count never exceeds 4 + k, and the lock time is set exactly from five failures on. |
| AuthRuns.LockHolds | apps/server/internal/api/auth.go:128-208 | Once set, a lock refuses every new login for five minutes unless a login already past the check succeeds; cleanup never lifts it early. |
| AuthRuns.RefusedForCause | apps/server/internal/api/auth.go:128-157 | Over every run a login is refused at the check only if its address had at least five logins rejected since its last accepted one, the last of them less than five minutes ago. |
| AuthRuns.LockExpires | apps/server/internal/api/auth.go:136-142 | So five minutes after the last rejected login every login from the address passes the check. |
| Alerts.ReconcileKeeps | apps/server/internal/alerting/evaluator.go:114-129 | One sample keeps at most one active alert per target and rule, changes no resolved alert, sets its own key's alert to the sampled condition and leaves other keys alone. |
| Alerts.RunsKeep | apps/server/internal/repository/alert.go:25-73 | Over every list of samples, with errors anywhere, no key has two active alerts and the table only extends earlier ones. |
| Alerts.RowsAreStays | apps/server/internal/alerting/evaluator.go:66-129 | Every alert row comes from a stretch of samples of its key that held: triggered at the time of the first, and resolved, if at all, at the time of the first sample after it that did not hold. |
| Alerts.RowsAreEdges | apps/server/internal/alerting/evaluator.go:66-129 | Without errors, an alert is active while its last sample holds, and the rows of a key count the false-to-true edges. |
| Evaluator.Evaluator.FireOrUpdate | apps/server/internal/alerting/evaluator.go:114-129 | After firing, the key has an active alert exactly if it had one or lookup and insert went well; a row is inserted only when it had none. |
| Evaluator.Evaluator.CheckStaleHeartbeats | apps/server/internal/alerting/evaluator.go:51-83 | The host loop reconciles each listed host's sample in order after marking; a failed marking ends it. |
| Evaluator.Evaluator.CheckRepeatedFailures | apps/server/internal/alerting/evaluator.go:86-112 | The job loop reconciles each listed job's sample in order, skipping failed counts. |
| Evaluator.Evaluator.RunAll | apps/server/internal/alerting/evaluator.go:45-48 | A pass is both loops, hosts first. |
| Monitoring.RunAllIsRun | apps/server/internal/alerting/evaluator.go:45-112 | From every reachable state with no pass under way, what the undisturbed RunAll does to hosts and alerts is what a run of single statements does, whether marking and listing succeed or fail. |
| Monitoring.HostsAreHistory | apps/server/internal/repository/host.go:27-96 | Over every run the table holds exactly the registered hosts, each with the time of the latest heartbeat it sent since registering, whatever re-registrations and passes happen between. |
| Monitoring.StatusIsHeartbeat | apps/server/internal/repository/host.go:27-115 | Over every run a host is unknown exactly while it has sent no heartbeat, stale only if the latest is over five minutes old, and never offline. |
| Monitoring.LastBeatIs | apps/server/internal/repository/host.go:88-95 | The latest heartbeat of a host is the last one sent after it was registered, at the time it was sent; without one there is none. |
| Monitoring.StaleIsMarked | apps/server/internal/repository/host.go:27-115 | Over every run a host is stale if and only if some pass has found it silent and it has sent no heartbeat since; re-registering does not matter. |
| Monitoring.PassMarksSilent | apps/server/internal/repository/host.go:103-115 | In every reachable state the update that opens a pass makes stale exactly the active hosts whose latest heartbeat is over five minutes old, and changes nothing else. |
| Monitoring.PassDecidesHosts | apps/server/internal/alerting/evaluator.go:51-83 | In every reachable state, with anything happening between the statements of the pass: if nothing in it failed, each visited host has an active stale alert exactly when, as of the listing, it had sent a heartbeat and the latest was over five minutes older than the visit. |
| Monitoring.PassVisitsAll | apps/server/internal/alerting/evaluator.go:62-82 | ... and every host registered by the time of the listing is visited. |
| Monitoring.PassVisitsAllJobs | apps/server/internal/alerting/evaluator.go:86-112 | A finished pass in which nothing failed has visited every job known when it listed the jobs. |
| Monitoring.AlertOutlivesSilence | apps/server/internal/alerting/evaluator.go:62-82 | Against the latest heartbeat of the whole run, a visited host has an alert without being silent exactly if it was silent when listed and has sent a heartbeat since, no more than five minutes before the visit. |
| Monitoring.AlertMissesSilence | apps/server/internal/alerting/evaluator.go:62-82 | ... and it is silent without an alert exactly if it had sent nothing when listed and has sent a heartbeat since, but none at most five minutes before the visit or later. |
| Monitoring.LateBeatIsAlerted | apps/server/internal/alerting/evaluator.go:62-82 | A concrete run that leaves an alert on an active host with a heartbeat of that moment. |
| Monitoring.FirstBeatIsMissed | apps/server/internal/alerting/evaluator.go:62-82 | A concrete run whose visit raises no alert for a host silent for six minutes. |
| Monitoring.PassDecidesJobs | apps/server/internal/alerting/evaluator.go:86-112 | Likewise each visited job has an active repeated-failures alert exactly when, among the executions recorded by its visit, it had three failed or unknown ones in the 24 hours before. |
| Monitoring.AlertsStayUnique | apps/server/internal/alerting/evaluator.go:114-129 | Over every run, faults included, one active alert per target and rule at most, and resolved alerts never change. |
| Monitoring.RunRowsAreEdges | apps/server/internal/alerting/evaluator.go:66-129 | Over runs in which no visit fails the alert rows of a key count the edges of everything sampled. |
| Monitoring.RunRowsAreStays | apps/server/internal/alerting/evaluator.go:66-129 | Over every run, faults included, every alert row comes from such a stretch of samples. |
| JobStates.ExecutionService.DiscoverJob | apps/server/internal/repository/job.go:26-58 | Afterwards the host and hash have a job, the old one if they had one, and still name at most one. |
| JobStates.ExecutionService.FindJob | apps/server/internal/repository/job.go:110-122 | A found id is the only job with that host and hash; if none is found there is no such job. |
| JobStates.JobsStayUnique | apps/server/internal/repository/job.go:26-58 | Over every run of discoveries and batches a host and hash name at most one job. |
| JobStates.ExecutionService.UpdateJobState | apps/server/internal/service/execution.go:67-90 | The refresh writes status, host, start (or schedule) time and the day's failure count of one job. |
| JobStates.ExecutionService.BatchReport | apps/server/internal/service/execution.go:25-52 | The batch inserts every insertable event in order and refreshes the row of each linked one; without errors every event gets a row, as reported, of its own job or the one its evidence hash names on the host, and the state of the last one's job says what that row says. |
| JobStates.CacheIsLast | apps/server/internal/service/execution.go:25-90 | After any serial sequence of error-free batches, with jobs discovered in between, a job's cached row is that of its last recorded execution, with the failed or unknown count of the day before that write. |
| Executions.CountsRecentFailures | apps/server/internal/repository/execution.go:166-179 | The count of recent failures is the number of the job's executions with status failed or unknown created less than 24 hours before. |
| JobStates.CountsAtLeastTrailing | apps/server/internal/repository/execution.go:166-179 | `consecutive_fail` is never less than the trailing run of recent failures and equals it if and only if no recent failure was followed by an execution of the job that is not one. |
| JobStates.SuccessDoesNotReset | apps/server/internal/repository/execution.go:166-179 | A failure followed by a success: the counter is one, the trailing run is empty. |
| Crontab.CollectJobs | apps/agent/internal/discovery/cron.go:92-120 | The loop carrying the current timezone gives every entry the last timezone line before it. |
| Crontab.ParseCrontab | apps/agent/internal/discovery/cron.go:85-121 | Parsing a file returns the jobs of its lines, timezone UTC by default. |
| Crontab.NormalizedIsCollapsed | apps/agent/internal/discovery/cron.go:178-189 | Every normalized command is its own whitespace-collapsed form, and has no first token only when it is empty. |
| CommandWords.PlainCommand | apps/agent/internal/discovery/cron.go:178-189 | A command without ">" keeps exactly its words, one blank apart. |
| CommandWords.RedirectedCommand | apps/agent/internal/discovery/cron.go:179-182 | A redirection into an absolute path behind a command, with any white space around ">", disappears. |
| CommandWords.SilencedCommand | apps/agent/internal/discovery/cron.go:179-185 | So does one that takes standard error along with "2>&1". |
| CommandWords.NumberStays | apps/agent/internal/discovery/cron.go:179-182 | Redirecting stream 2 into a file leaves a word "2" behind. |
| CommandWords.MatchesIff | apps/agent/internal/observer/process.go:91-99 | A process matches a command if and only if its command line contains the command's first word. |
| CommandWords.RunningMatches | apps/agent/internal/observer/process.go:91-99 | A process whose command line contains a whole normalized command matches it. |
| CrontabPrinter.RoundTrip | apps/agent/internal/discovery/cron.go:85-174 | Printing any list of timezone lines (either name, quoted or not), well-formed entries, comments, blank lines and @-lines, with or without user field, and parsing it returns the entries in order, each with the last preceding timezone or UTC. |
| CrontabPrinter.EntryIff | apps/agent/internal/discovery/cron.go:126-162 | A line gives a job if and only if it consists of five fields, a user where there is one, and a command, with any white space between; the job has those fields, that user and that command. |
| CrontabPrinter.DiscoveredIsIndexable | apps/agent/internal/observer/process.go:92-99 | For every file, taking the first token of a discovered job's normalized command cannot fail. |
| Trends.OneBucketEach | apps/server/internal/repository/stats.go:50-63 | Each execution of the window lies in exactly one reported bucket [b, b + width). |
| Trends.BucketsAddUp | apps/server/internal/repository/stats.go:50-63 | The bucket totals add up to the window total. |
| Trends.RestIsMissed | apps/server/internal/repository/stats.go:52-60 | A bucket's total less its three reported counts is its number of missed executions. |
| Trends.WindowAddsUp | apps/server/internal/repository/stats.go:23-34 | The five status counts of a window make up its total: every finished execution is counted under exactly one status. |
| Trends.HostsAddUp | apps/server/internal/repository/stats.go:123-133 | For every result of the query, one line for each host with rows and worst first, the totals and failures add up to those of the window. |
| Trends.OneLinePerJob | apps/server/internal/repository/stats.go:81-97 | Joined rows of one job agree on host and failure count. |
| Trends.JobLinesDistinct | apps/server/internal/repository/stats.go:81-97 | No two lines of a result are about the same job, although the query groups by three columns. |
| Trends.JobsAddUp | apps/server/internal/repository/stats.go:81-97 | For every result of the query the line totals add up to the executions of the window that have a job: the joins never multiply rows. |
| TrendRows.WindowMeaning | apps/server/internal/repository/stats.go:23-34 | A window counts exactly the executions created at or after its start that are not running, and under each status those with it. |
| TrendRows.PointMeaning | apps/server/internal/repository/stats.go:50-63 | Each number of a reported bucket counts the executions of the window with its statuses in [b, b + width), and none is empty. |
| TrendRows.ColumnsAddUp | apps/server/internal/repository/stats.go:50-63 | The success, failed and unknown columns of the buckets each add up to the executions of the window with those statuses. |
| TrendRows.HostLineMeaning | apps/server/internal/repository/stats.go:123-133 | Every host with executions in the window has a line, with the number of those and of the failed ones, in falling order of failures. |
| TrendRows.JobLineMeaning | apps/server/internal/repository/stats.go:81-97 | Every job with executions in the window has a line, and each line has the job's host, the number of its executions, successes and failures in the window, the time of the latest, and the cached failure count or zero. |
| ExecutionFilter.AddIds | apps/server/internal/repository/execution.go:114-135 | Both id fields, when well formed, become conditions that select what the fields ask for; a malformed one is refused, host first. |
| ExecutionFilter.BuildQuery | apps/server/internal/repository/execution.go:110-156 | For every filter, with any text as status, placeholders run consecutively, each on its own argument of its column's type, limit and offset last, and the conditions select exactly the wanted rows. |
| ExecutionFilter.QueryMeansFilter | apps/server/internal/repository/execution.go:110-163 | The database's answer to the built query is exactly a page, newest first, of the rows that direct filtering keeps. |
| ExecutionFilter.AnswerMeaning | apps/server/internal/repository/execution.go:110-163 | An answer to the built query is, with the rows before and after it, the newest-first list of the rows whose host, job, status and time are as asked; it starts at the offset and ends after the limit (fifty for a non-positive one) or with the rows. |

## Left out

- Ties: executions of one job with equal `created_at` are ordered arbitrarily by SQL; a history has distinct times.
- AverageRecovery: adds reals, not rounded 64-bit floats.
- FlushMetrics, BufferMetric: the same outbox on another bucket.
- FlushExecutions: one goroutine, with the others as arriving events; concurrent flushes are in module Outbox, and `FlushIsRun` connects the two.
- Agent crashes and restarts: a command whose goroutine dies stays dispatched, and mail read but not yet processed when the offset is saved is lost; neither is modelled.
- Completing a command by someone other than its own goroutine: Fleet assumes only the goroutines do.
- Failed inserts inside Fleet's own statement: `CompletedIsReported` ends at the acknowledgement, as in Outbox.
- ReadNew: a file that is rewritten while it is read. In the runs of MailSpool a read delivers everything or fails.
- ScanIsComplete: mails with a header or body line whose end looks like an envelope line; a cut exactly there can leave a readable mail.
- MailSpool: mail is appended as whole messages; a scan that sees a half-written message is not modelled.
- Mbox: the envelope date and the MD5 message hash are kept as the texts they are computed from; Unicode white space and case, and UTF-8.
- processMailMessage: correlating a mail with a job by substring, and its event.
- RunProcessScan: store writes that fail; a PID reused between two scans by a process that also matches counts as the same execution, as in the source.
- Agent: the scan loop shares its maps with goroutines only through its store and is modelled as sequential; fresh ids are drawn in increasing order.
- Login: constant-time comparison is equality; the credential validator, the legacy token and the middleware are not modelled.
- FireOrUpdate: inside a pass its lookup and insert are one step; only the one evaluator thread writes alerts.
- Evaluator: alert messages and severities; several evaluators at once.
- Host deletion, manual status changes (`UpdateStatus`) and job deletion.
- BatchReport: batches of different requests interleave only as whole batches.
- CacheIsLast: `next_expected_at`, which is always written as NULL here.
- ParseCrontab: file errors and the scanner's line-length limit; the command hash; ASCII white space only.
- normalizeCommand: idempotence is not claimed.
- Trends: success rates, which divide two of the counts.
- QueryMeansFilter: a negative offset, which the database rejects; the query's text beyond its conditions.
- EnqueueRuns: only errors of the lookup and the insert; requests run one at a time.
- Enrollment, credentials, configuration, HTTP routing and JSON, probes, journald, process listing, shell execution and the web interface.
