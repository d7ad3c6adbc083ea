# Server Probe: a verified model

Server Probe watches up to fifty Linux servers. An agent on each server enrolls once with a short-lived code, gets a
client certificate, renews it, and reports its metrics over mutual TLS. The server keeps nodes, enrollment codes,
enrollment results, certificates and samples in SQLite, limits how often a node may report, and draws a dashboard.

This project models that system in Dafny and proves what it keeps over every run.

## How the model is built

Each file holds the module of its name.

- `Database` says what each store operation commits and answers, on plain tables; `Outcomes` says the same of every row
  of every table afterwards, and when each operation succeeds, in the source's own figures. `Store` is the store itself,
  a class whose fields are the tables; every method is one transaction, proved to do what `Database` says.
- `Identity` and `Handlers` split `Enroll`, `HandleRenew` and `HandleReport` into phases, one per store access;
  `Services` holds the services over the store, proved equal to the phases run without interruption. `Protocol` is the
  whole server as a state machine over any number of such calls: a run is any sequence of actions, so a statement about
  all sequences is a statement about all interleavings. History variables record when each code was
  created and what it persisted, the line of renewals above each certificate, every receive time, whom each report was
  authenticated as, and which report each sample came from.
- `Invariants`, `Agreement`, `Enrollments`, `Renewals`, `Revocation`, `LateReplay`, `IdentityPaths`, `Attribution`,
  `Reporting` and `OvertakenReport` are about those runs. `Credentials` is the agent's disk, and `JointRuns` one agent and the server
  together, with lost replies and crashes at any point. `Reachable` leads runs from the empty server into failures.
- `Limiter` is the sliding-window limiter, a class over a map of lists, specified by `Windows` and `LimiterSteps`;
  `LimiterRuns` compares it with the simple limiter that keeps every admission for ever; `RateLimit` follows a denial
  through the response header to the agent's next try; `Ingest` is the report handler over store and limiter;
  `SendRetry` is the agent's loop.
- `RenewalWindow`, `AgentRenewal` and `EarlyRenewal` are about when the agent and the server think a renewal is due, and
  what becomes of the difference.
- `Retention`, `Counters`, `Collection`, `Traffic`, `StoredRates` and `Trend` are about samples: what pruning keeps,
  what the collector measures, what the dashboard adds up and draws; `NodeStates` is the state it shows. `Shell` and
  `Registration` are about the command that enrolls an agent. `Numerals` prints and parses integers of any size;
  `Common` and `Counting` hold shared vocabulary.

Assumptions: each store transaction is atomic and foreign keys hold; serial numbers, codes and node ids are drawn fresh;
the code hash is injective; a certificate request is its public key and a signature cannot be forged. Instants are
whole nanoseconds, table columns whole milliseconds, X.509 bounds whole seconds (section 4.1.2.5 of RFC 5280). A
statement that needs a clock that does not go back says so.

## Where the code does not do what one would expect

Each of these is proved: when the code fails, exactly, and that a run or an input leads there.

- A second replay after a lost race to commit does not check the certificate. `Enroll` then answers with a dead
  certificate exactly if since its commit the node was disabled, or the certificate was renewed, or it expired
  (`LateReplay.AnswerIsActive`; reached by `LateReplay.LoserAnswersRevoked` and `LateReplay.RaceIsReachable`).
- A node's newest stored sample and its last report time come apart exactly when a report is recorded that is older than
  the last one, whose sample is gone (`Reporting.RecordIsInStep`, over runs `Reporting.OrderlyRunsStayInStep`; reached by
  `OvertakenReport.OvertakenLeavesThemApart` and `OvertakenReport.WaitingIsReachable`).
- For a fraction of a second after the agent first finds a renewal due, the server still answers "not due" as HTTP 401,
  which the agent takes for the end of its authentication, and stops (`EarlyRenewal.EarlyRenewalStopsAgent`; reached by
  `Reachable.EarlyIsReachable`).
- A retry time above one hour is read by the agent as one second (`RateLimit.WaitCovers`, `RateLimit.PromptRetry`). The
  limiters that `cmd/probe-server/main.go` builds have windows of one and fifteen minutes, so by
  `RateLimit.RetryWithinWindow` they ask for that much only if their clock goes back, which it can, as `.UTC()` drops
  the monotonic reading (`RateLimit.LongRetryIsReachable`).
- A hexadecimal serial without letters is read as decimal when it is passed as a query value, which the proxy in
  `deploy/Caddyfile` does not do but `internal/server/ingest_test.go` does (`Numerals.HexSerialNormalizes`,
  `Numerals.HexSerialMisread`).
- A crash between the writes of certificate and authority is never recovered from (`JointRuns.HalfWrittenIsStuck`;
  reached by `Reachable.HalfWrittenIsReachable`).
- Reports that arrive within one millisecond of each other lose their bytes in the 24-hour traffic. So the error is not
  always bounded by rate times gap difference over the positive gaps: it is if and only if the lost bytes are at most
  twice what the other gaps count too much (`Traffic.PositiveGapsBoundError`, `Traffic.LegsWithoutGapCount`).
- The design document gives the last back-off as 30 seconds; the code waits 32 (`SendRetry.SeriesIsShort`).

## Model

| member | source | states |
|---|---|---|
| Agreement.OneCertificatePerCode | internal/server/certificates.go:172-205 | In every run, however enrolls, disables, removals, renewals and new codes interleave, a code persists at most one certificate. |
| Agreement.EnrollmentsAgree | internal/server/certificates.go:181-204 | In every run all successful calls for one code answer with the same certificate and serial, for the same public key and the code's node, and expiries equal up to the part below a millisecond. |
| Agreement.RunKeepsAgreed | internal/server/store.go:229-303 | The invariant behind both: stored results, codes in use and every answer given record the one enrollment of their code; every action keeps it. |
| LateReplay.AnswerIsActive | internal/server/certificates.go:181-204 | A step that answers successfully answers with a certificate that is active then, but for one case: it is the second replay, and since the commit the node was disabled, the certificate was renewed, or it expired; both directions. |
| LateReplay.LoserAnswersRevoked | internal/server/certificates.go:197-204 | Whenever two calls race and the node is disabled between their commits, the loser succeeds with the revoked certificate. |
| LateReplay.RaceIsReachable | internal/server/certificates.go:181-204 | A run from the empty server reaches such a race. |
| Renewals.RenewedAtMostOnce | internal/server/store.go:328-368 | In every run, two stored certificates that were renewed from the same one are one certificate, even when the renewals ran concurrently. |
| Renewals.ChainsAreSpaced | internal/server/store.go:347-356 | Every stored certificate descends from a stored enrollment by certificates of its node, all revoked but perhaps itself, each issued at least 23 days after the one before, so a chain has at most 1 + span / 23 days members. |
| Renewals.OneLiveCertificatePerEnrollment | internal/server/store.go:357-366 | While its node is enabled, an enrollment has exactly one live certificate in its chain, the last, and all others of the chain are its ancestors. |
| Renewals.LiveCertificatesAreConserved | internal/server/store.go:173-197 | In every run an enabled node has exactly as many unrevoked certificates as enrollment results, and a disabled node none. |
| Revocation.RevocationIsFinal | internal/server/store.go:173-197 | After a disable commits, in any continuation: no serial and no credential authenticates the node, nothing is stored for it that was not stored then, and no renewal or report of it succeeds, even one that had already authenticated. |
| Revocation.RemovalIsFinal | internal/server/store.go:470-483 | A removed node never comes back, and no certificate, code, result or sample of it is ever stored again. |
| IdentityPaths.PathsAgree | internal/server/ingest.go:95-148 | For every stored certificate in every run: the row's node is the common name, its decimal serial normalises to the row's key, and within its validity the certificate path and the proxied-serial path answer the same. |
| Numerals.TextRoundTrip | internal/server/ingest.go:114-123 | Printing and parsing undo each other for every integer in every base up to 16. |
| Numerals.NatTextInjective | internal/server/ingest.go:139-139 | Two serial numbers with one text are one number. |
| Numerals.DecimalSerialNormalizes | internal/server/ingest.go:114-123 | The decimal serial of any certificate normalises to the hexadecimal key under which it is stored. |
| Numerals.HexSerialNormalizes | internal/server/ingest.go:119-122 | A hexadecimal serial survives normalisation if and only if it has a letter or is below ten. |
| Numerals.HexSerialMisread | internal/server/ingest.go:119-122 | The failing case: serial 16, in hexadecimal "10", is read as the certificate numbered ten. |
| Numerals.TrimSpaceTrims | internal/server/ingest.go:115-115 | Trimming takes exactly the white space at both ends: what it leaves is the part between, which neither begins nor ends with any. |
| JointRuns.DiskIsAlwaysPrefix | internal/agent/enrollment.go:42-123 | In every joint run with crashes and lost replies, the agent's files are a prefix of key, certificate, authority, and a stored certificate is the one ever persisted for the code, for the stored key. |
| JointRuns.KeyNeverChanges | internal/agent/enrollment.go:125-151 | Once a key is on disk it stays through every retry, crash and lost reply. |
| JointRuns.RepeatedRequestIsRetry | internal/agent/enrollment.go:53-56 | Once a call has committed, whether or not its reply arrives, the same request again is a retry of that enrollment. |
| JointRuns.RetryReceivesStored | internal/server/certificates.go:181-185 | A retry with the same key, whatever happens before and between its steps, never issues; it succeeds exactly when the stored certificate is active, and with that certificate, whether or not the code has expired. |
| JointRuns.RestartRecovers | cmd/probe-agent/main.go:146-170 | From a key alone, a restarted agent ends with all three files and the stored certificate exactly when that certificate is active at the retry's second step and acceptable on receipt, and else with its disk as before, whatever happens at the server before and between the steps, before the reply and between the writes. |
| JointRuns.HalfWrittenIsStuck | cmd/probe-agent/main.go:163-165 | Key and certificate without authority are refused for ever; no run changes the disk. |
| Reachable.HalfWrittenIsReachable | internal/agent/enrollment.go:113-121 | A joint run from a new agent and the empty server ends in that state. |
| Credentials.CredentialDirectory.LoadOrCreatePrivateKey | internal/agent/enrollment.go:125-151 | Answers the key on disk if it can be read and parsed, writes and answers a new one if there is none, and otherwise fails; a key on disk is never replaced. |
| Credentials.CredentialDirectory.EnsureCredentials | cmd/probe-agent/main.go:146-170 | With any fault of inspection, settings, key or writes: an existing key, complete files and the prefix order stay, and what is written is the reply's certificate and authority, only if it is verified, for the key on disk and within its validity; without faults it succeeds exactly when the files end complete. |
| Store.Store.CreateNode | internal/server/store.go:142-171 | One transaction that commits and answers what `Database.CreateNode` says and keeps the constraints; an error changes nothing. By `Outcomes.CreateNodeOutcome` that is one new row under the trimmed name, exactly if this is 1 to 128 bytes and there are fewer than 50 nodes. |
| Store.Store.DisableNode | internal/server/store.go:173-197 | The same for disabling: by `Outcomes.DisableNodeOutcome` the node and each of its certificates that was not revoked, no other row, in one transaction. |
| Store.Store.RemoveNode | internal/server/store.go:470-483 | The same for removal: by `Outcomes.RemoveNodeOutcome` exactly the rows of the node go, from all five tables. |
| Store.Store.CreateEnrollmentCode | internal/server/store.go:199-227 | The same for a new code. |
| Outcomes.CreateCodeOutcome | internal/server/store.go:199-227 | A new code replaces whatever code its node had, used or not, and leaves those of other nodes; it opens the node at an instant exactly if its own time is later in whole milliseconds, and is expired otherwise. |
| Store.Store.EnrollCertificate | internal/server/store.go:229-275 | The same for the enrollment commit: certificate, result and used code together or not at all; by `Outcomes.EnrollOutcome` exactly if the code is unused and in its time, its node is enabled, and serial and result are new. |
| Enrollments.ReplayFollowsHistory | internal/server/store.go:285-303 | In every run a replay is found exactly if the code has persisted a certificate and its node has not been removed; then it answers what was persisted, to the key that enrolled and to no other. |
| Renewals.LookupFollowsHistory | internal/server/store.go:305-326 | In every run a stored certificate is looked up as revoked exactly if its node was disabled or it has been renewed, else as expired at its time, else as the node of its enrollment. |
| Enrollments.CodeFollowsHistory | internal/server/certificates.go:156-170 | In every run an outstanding code is refused as used exactly if it has persisted a certificate, as expired exactly if it has not and ten minutes have passed since its creation, in whole milliseconds, and otherwise opens the node that it was created for. |
| Store.Store.RenewCertificate | internal/server/store.go:328-368 | The same for renewal: the new row and the revocation of the old one together or not at all; by `Outcomes.RenewOutcome` exactly if the old certificate is active and in its last seven days. |
| Store.Store.RecordReport | internal/server/store.go:370-409 | The same for a report: by `Outcomes.RecordOutcome` the sample as one new row, and the last report time when the report is newer. |
| Store.Store.LatestSample | internal/server/store.go:485-502 | Finds a row of the node with the greatest receive time, and none only if the node has none; ties either way. |
| Store.Store.OldestSample | internal/server/store.go:551-553 | Finds the least row in the order of receive time and id, and none only if there is none. |
| Store.Store.MaintainSamples | internal/server/store.go:536-566 | Terminates for every size reading; what is left is the purged samples (by `Outcomes.PurgeOutcome` exactly those received since the cutoff) without the oldest few, stopping at the first reading within the limit, failing at a failed one, or with nothing left; no other table changes. |
| Retention.PrunedIsUnique | internal/server/store.go:551-553 | How many rows were deleted determines which: the outcome is the unique end segment of that size. |
| Retention.MaintenanceIsDeterministic | internal/server/store.go:536-566 | For every way the sizes can read there is exactly one outcome, deletions and success included. |
| Retention.MaintenanceKeepsThirtyDays | internal/server/store.go:529-566 | Whatever the sizes read, nothing received more than thirty days ago is left; and every sample received since is, unless the first reading is over the limit, which is 2 GiB if none is set; if anything is left after success, the last reading is within it. |
| Database.EnrollKeepsConstraints | internal/server/store.go:99-126 | The enrollment commit keeps the foreign keys, one code per node, and the node limit. |
| Database.RemoveNodeKeepsConstraints | internal/server/store.go:99-126 | The cascades of a removal leave no row that refers to the removed node. |
| Services.EnrollmentService.Enroll | internal/server/certificates.go:172-205 | Run without interruption it commits and answers exactly what the phase machine of the protocol does. |
| Handlers.LookupAlone | internal/server/certificates.go:181-196 | The lookups of an uninterrupted enrollment: a replay wins over the code's state, a wrong key is "used", and only an unused code leads to a certificate to commit. |
| Handlers.EnrollCommitAlone | internal/server/certificates.go:197-204 | The commit of an uninterrupted enrollment, and the second replay when it fails. |
| Services.EnrollmentService.CreateEnrollmentCode | internal/server/certificates.go:156-170 | A new code opens its node at exactly the instants before ten minutes have passed, in whole milliseconds, and is refused as expired from then on. |
| IdentityPaths.IdentityFollowsHistory | internal/server/ingest.go:95-148 | In every run a client is identified only by a certificate that is stored, the last of its line, of an enabled node and not expired, and as the node it names; the certificate is the one presented, signed and within its validity, or the one whose normalised serial the proxy passed on; and every such certificate identifies. |
| Attribution.RecordedReportIsOwn | internal/server/ingest.go:59-62 | In every run, a report call that answers success is for the node that its credential identified when it authenticated, and the certificate of that identity was signed for this node, whatever ran in between. |
| Attribution.SampleIsOwn | internal/server/ingest.go:32-88 | In every run, every stored sample is the metrics and receive time of one successful report, stored under the node that this report's credential identified. |
| Services.RenewalService.HandleRenew | internal/server/renewal.go:20-68 | Run without interruption it commits and answers exactly what the phase machine of the protocol does. |
| Reporting.LastReportIsMaximum | internal/server/store.go:400-403 | In every run a node's last report time is the maximum of all receive times ever recorded for it, in any order, and no stored sample is newer. |
| Reporting.RecordIsInStep | internal/server/store.go:370-409 | Recording leaves newest sample and last report time in step if and only if the report is in order or the sample of the last report is still stored. |
| Reporting.LosingOldestStaysInStep | internal/server/store.go:529-566 | Losing only the oldest samples of a node, as purge and pruning do, keeps the two in step. |
| Reporting.OrderlyRunsStayInStep | internal/server/store.go:370-409 | A node's newest sample and last report time are in step after every prefix of a run if and only if every successful recording in it is in order or finds the newest sample still stored. |
| Reporting.LatestSampleShowsState | internal/server/store.go:411-437 | In these runs the latest sample was received at the last report time, so both give the node the same state at any time. |
| NodeStates.StateOnlyDegrades | internal/probe/model.go:82-98 | Without a new report a node never looks better later, and revocation never makes it look better. |
| NodeStates.StateFollowsAge | internal/probe/model.go:82-98 | Online for 90 seconds after a report, delayed for 90 more, then offline; a disabled node is offline at once. |
| OvertakenReport.OvertakenLeavesThemApart | internal/server/store.go:370-409 | Three steps that leave a stored node with a newest sample older than its last report time. |
| OvertakenReport.WaitingIsReachable | internal/server/ingest.go:32-88 | A run from the empty server reaches the state in which those steps begin. |
| LimiterRuns.LimiterIsNaive | internal/server/ingest.go:202-269 | With a clock that does not go back and no eviction, every call of every run is answered, retry time included, as by the limiter that keeps every admission for ever and filters by the window. |
| LimiterRuns.LimiterIsNaiveForFewKeys | internal/server/ingest.go:210-212 | With at most 4096 keys ever allowed nothing is evicted, so the same holds outright. |
| LimiterRuns.WindowsHoldLimit | internal/server/ingest.go:202-221 | In every such run no window (t - W, t] of any key holds more than `limit` admissions. |
| LimiterRuns.DenialIsReal | internal/server/ingest.go:213-216 | With any evictions, a denial means at least `limit` real admissions of that key inside the window. |
| LimiterRuns.KeysAreBounded | internal/server/ingest.go:193-286 | After any run, on any clock: no key holds more than `limit` times; at most 4097 keys, at most one of them empty; right after an `Allow` at most 4096, none empty. |
| LimiterRuns.ChecksAreTransparent | internal/server/ingest.go:223-238 | With a clock that does not go back, runs that differ only in their checks allow and deny alike, evictions included, and may evict the same keys. |
| LimiterRuns.CheckPredictsAllow | internal/server/ingest.go:223-238 | A check answers what an `Allow` would answer at that instant, whatever that would evict. |
| Limiter.SlidingWindowLimiter.Allow | internal/server/ingest.go:202-221 | Prunes, evicts the oldest key for a new one when full, and admits or denies: map and answer are exactly the step's. |
| Limiter.SlidingWindowLimiter.Check | internal/server/ingest.go:223-238 | Prunes and answers without admitting; leaves an empty list for a key that has none. |
| Limiter.SlidingWindowLimiter.PruneExpired | internal/server/ingest.go:256-269 | Every list loses exactly its expired prefix, and emptied keys go. |
| Limiter.SlidingWindowLimiter.EvictOldest | internal/server/ingest.go:271-286 | Removes the empty keys and one key whose first time is oldest; ties either way. |
| Limiter.SlidingWindowLimiter.CountExpired | internal/server/ingest.go:243-246 | Counts the expired prefix: what is left is the recent part. |
| Windows.RecentTwice | internal/server/ingest.go:256-269 | Pruning at an earlier and then at a later cutoff is pruning at the later one. |
| RateLimit.RateLimitRoundTrip | internal/server/ingest.go:63-73 | With a clock that does not go back and a window of at most an hour, a denied agent that waits the advertised time is admitted at its next try, whatever other keys do and whatever is evicted. |
| RateLimit.WaitIsHonoured | internal/server/ingest.go:202-221 | On any clock, waiting as advertised is enough whenever the limiter asked for at most an hour and the key was not admitted meanwhile. |
| RateLimit.WaitingIsEnough | internal/server/ingest.go:202-221 | On any clock, any wait that is at least what a denial asked for ends in admission, if no one else was admitted under the key meanwhile. |
| RateLimit.WaitCovers | internal/agent/client.go:176-182 | Through ceiling, decimal text and parsing: the agent waits long enough if and only if at most an hour was asked, then less than a second too long; more is read as one second. |
| RateLimit.HeaderIsBounded | internal/agent/client.go:176-182 | No header makes the agent wait for more than an hour; one that is no number, or no number of 0 to 3600 seconds, makes it wait one second. |
| RateLimit.PromptRetry | internal/agent/client.go:116-121 | A retry after exactly the wait read, nothing else having happened, is admitted if and only if at most an hour was asked. |
| RateLimit.LongRetryIsReachable | cmd/probe-server/main.go:66-66 | With the server's own report limits and a clock that goes back an hour, a denial asks for more than an hour and the retry is denied. |
| RateLimit.RetryWithinWindow | internal/server/ingest.go:214-216 | With a clock that does not go back, a denial asks for more than nothing and at most the window. |
| Ingest.IngestService.HandleReport | internal/server/ingest.go:32-88 | Unauthorized without a client, bad request without a valid report, and unauthorized for a node other than the client's, each exactly then and with nothing changed; a limited request changes only the limiter and is told the wait; otherwise the one new sample is stored under the client's own node. |
| Ingest.IngestService.Record | internal/server/ingest.go:79-87 | The last phase alone: a node disabled or removed meanwhile is unauthorized, any other failure unavailable. |
| SendRetry.SendWithRetry | internal/agent/client.go:103-126 | At most seven attempts; all but the last met a 429 or a status from 500; after a 429 the wait is what the server asked for, less than a second longer, and after the others 1, 2, 4 up to 32 seconds by attempt; the last attempt is accepted, not to be retried, the seventh, or followed by an interrupted wait; fails for authentication if and only if an attempt it reaches meets 401 or 403. |
| SendRetry.SentAgainIsAdmitted | internal/agent/client.go:116-120 | Header and limiter together: a report that the limiter denied is admitted when the series sends it again, if at most an hour was asked and no one else was admitted under the key meanwhile. |
| SendRetry.SeriesIsShort | internal/agent/client.go:108-124 | Without rate limiting the waits add up to at most 63 seconds, and a full series waits exactly that, 32 seconds last. |
| SendRetry.Run | internal/agent/client.go:128-163 | The loop ends at the first round that loses authentication, in the renewal or the report, or is canceled; every other failure only passes. |
| RenewalWindow.WindowsAgree | internal/agent/renewal.go:53-59 | In every run, for every stored certificate and instant, agent and server agree on not due, due and expired, but for a lag below a second after the first due instant and after the expiry. |
| RenewalWindow.AskingIsAnswered | internal/server/store.go:347-356 | A request sent when due and handled at any time from then on is answered "not due" exactly when the certificate is unrevoked and the lag, below 1000 ms, is not over, and "expired" exactly when it is unrevoked and expiry and lag are past; never "expired" at the instant of asking. |
| RenewalWindow.LagIsIssueFraction | internal/server/certificates.go:121-127 | The lag is the part of the issue time below a second, in whole milliseconds. |
| EarlyRenewal.EarlyRenewalStopsAgent | internal/agent/renewal.go:86-89 | In every run, an agent with an active certificate that asks when due and is served at once stops if the lag is not over, and renews otherwise. |
| EarlyRenewal.FailureIsTrouble | internal/agent/renewal.go:90-93 | A server that fails for its own reasons does not stop the agent: the attempt is only trouble. |
| Reachable.EarlyIsReachable | internal/agent/renewal.go:53-59 | A run from the empty server, an active certificate and an instant within the lag. |
| AgentRenewal.RenewingAgent.RenewIfDue | internal/agent/renewal.go:36-108 | Renews if and only if the files are complete and match, the certificate is due, and the reply is for the key, from the authority on disk, verified and within its validity; ends authentication if and only if the files match and the certificate is expired, or due and refused with 401 or 403. Replaces the certificate file and nothing else, and keeps usable files usable. |
| AgentRenewal.AttemptMeans | internal/agent/renewal.go:53-108 | The same conditions on instants: nothing while more than seven days are left, and trouble whenever the files do not match. |
| AgentRenewal.RenewingAgent.BeforeReport | cmd/probe-agent/main.go:106-132 | Attempts at most once an hour; the client follows the file unless loading it fails. |
| AgentRenewal.ChecksAreHourly | cmd/probe-agent/main.go:113-119 | Over any series of calls the attempts are at least an hour apart. |
| AgentRenewal.RunningAgentAsks | cmd/probe-agent/main.go:113-119 | An agent that is up from before the first due instant to the expiry, and is called often enough, makes an attempt while due and not expired. |
| Counters.PercentIsExact | internal/agent/metrics.go:53-77 | Though the totals wrap at 64 bits, the percentage is the true share of busy ticks whenever fewer than 2^64 ticks passed. |
| Counters.PercentIsBounded | internal/agent/metrics.go:53-77 | For any two readings it lies between 0 and 100, and is 0 if any counter went back. |
| Counters.RateTimesElapsed | internal/agent/metrics.go:214-219 | A rate is not negative, and times its interval gives the counter's increase back. |
| Collection.CollectsReportable | internal/agent/collector.go:43-101 | A pass makes a report exactly when every file was read, the load is not negative and the node is named: no derived figure ever invalidates it; otherwise the previous reading stays. |
| Collection.Collector.SampleAt | internal/agent/collector.go:43-101 | In place: a report, made exactly for reportable readings, shows this pass's memory, disk and load, and its processor share and rates since the reading kept from the report before; then this reading is kept, and a failed pass keeps the old one. |
| Collection.FailedPassesLeaveNoTrace | internal/agent/collector.go:43-101 | The reports of any series of passes are those of its successful passes alone. |
| Collection.ReportMeasuresInterval | internal/agent/collector.go:90-99 | Every report but the first measures from the reading of the report before it. |
| Collection.ReportShowsReadings | internal/agent/collector.go:84-99 | Over any series of reportable readings the i-th report shows memory, disk and load of the i-th; its processor share is the busy share of the ticks between that reading and the one before, its rates times their interval are the counter increases; and all are zero for the first report or when a counter went back. |
| Traffic.TrafficUsage | internal/server/web.go:205-216 | The loop computes, in both directions, the whole part of rate times gap summed over positive gaps. |
| Traffic.TrafficTelescopes | internal/server/web.go:205-216 | From collector to dashboard: when every report arrives and arrival gaps equal sampling gaps, the dashboard shows exactly the sum of the counter's increases. |
| Traffic.IncreasesTelescope | internal/agent/metrics.go:214-219 | Without resets, on a clock that moves, that sum is the last counter minus the first. |
| Traffic.TrafficErrorIsBounded | internal/server/web.go:205-216 | For any arrival times the error is at most the sum, over every leg, of rate times difference of gaps. |
| Traffic.UsageIsIncreasesPlusSurpluses | internal/server/web.go:207-214 | The error exactly: rate times gap difference on positive gaps, minus all bytes of the others. |
| Traffic.PositiveGapsBoundError | internal/server/web.go:205-216 | The error is bounded by rate times gap difference over the positive gaps alone if and only if the bytes lost on the other gaps are at most twice what the positive ones count too much. |
| Traffic.LegsWithoutGapCount | internal/server/web.go:208-211 | It is not always: two reports within one millisecond lose a thousand bytes. |
| StoredRates.ReadSamplesAddUp | internal/server/store.go:504-527 | In every run the samples read for a node have times in order and figures in range: a processor share of 0 to 100, load and rates that are not negative. |
| Trend.TrendPoints | internal/server/web.go:255-282 | For any non-empty list: 1 to 144 points, no more than the allocated capacity, each showing the figures of its own sample, at increasing places at most a stride apart from the start to the end, the last with the newest time. |
| Shell.QuoteRoundTrip | internal/server/web.go:290-292 | A POSIX shell reads a quoted value back as exactly one word, the value, if it holds no NUL, and rejects it otherwise. |
| Shell.QuoteIsInjective | internal/server/web.go:290-292 | Two values that quote alike are one value. |
| Shell.EnrollmentCommandIsRead | internal/server/web.go:145-145 | For all values the enrollment command parses to four assignments of exactly these values and one command word, if and only if none holds a NUL. |
| Registration.MonitorHandler.RegisterNode | internal/server/web.go:129-147 | All or nothing: without a command the database is as before; with one the node is new, its code opens it for exactly ten minutes, and a shell reads the values back. |
| Registration.RemovingUndoesCreating | internal/server/web.go:139-143 | Removing a node just created restores every table. |

## Left out

- X.509, PEM, ECDSA, TLS and SHA-256: a certificate is a record, a private key is known by its public half, a code by itself instead of its hash, and whether a chain verifies is part of the input.
- HTTP, JSON, body limits, host routing, templates, styles, `trend.js`, Docker and systemd: requests and answers are values.
- SQLite: transactions are atomic and serialised, and a query that fails for the database's own reasons is not modelled except for the size reading of `MaintainSamples`. `BackupTo`, `BackupDaily` and file permissions are not part of this model.
- Floating point: rates, percentages and traffic are real numbers, and a traffic total above 2^64 bytes is not converted.
- Parsing the files under `/proc`, configuration, `deriveRenewalEndpoint`, the disk usage call and the unused tables for administrators and sessions.
- Temporary files of `writeCredential`: a credential file changes in one step, and a write that fails leaves it alone. In the joint runs files can always be read and written unless the agent crashes.
- Loss of a renewal's reply: the server has revoked the old certificate by then and keeps no replay, so nothing is claimed for that agent.
- Store.Store.CreateNode: a name is a sequence of Unicode characters whose bytes are counted as UTF-8; a name that is not valid UTF-8 is not modelled.
- Store.Store.RecordReport: does not model the limit of 8 KiB on the report's JSON, which the numbers and an id of the server's making never reach.
- Store.Store.MaintainSamples: runs without interruption; in the runs of the protocol its deletions are separate actions among all others, and `Reporting.LosingOldestStaysInStep` is about those.
- Registration.MonitorHandler.RegisterNode: runs without interruption; `Revocation.RemovalIsFinal` says for any interleaving that a node taken back leaves nothing.
- SendRetry.Run: takes the rounds of the loop as a finite sequence, each with what it meets, because the loop itself has no end.
- Numerals.TextRoundTrip: integers are unbounded; the agent reads the retry header into 64 bits, where a longer number is an error, which it treats like any number above an hour.
- LimiterRuns.LimiterIsNaive: does not hold once a key is evicted, because evicting forgets admissions; `LimiterRuns.DenialIsReal` says what is left then.
- Reporting.LatestSampleShowsState: is about runs whose recordings are orderly; `Reporting.OrderlyRunsStayInStep` says that these are all in which it can hold throughout.
