# Arenet: verified model of the alerting, caching, saga and redaction logic

Arenet is a reverse proxy with an admin API. This project models the parts of it whose correctness
cannot be read off one function body, and proves what they promise, for every input, every
interleaving or every run:

- **Alerting** (`Cooldown`, `Evaluator`, `WatcherLoop`, `WatcherRuns`, `ThresholdRuns`, `Dispatcher`, `DiscordSender`,
  `CleanList`): the polling watcher with its forgetting cooldown table and its persisted edge bit, the
  fan-out to channels, and the mention line of a Discord channel.
- **CrowdSec** (`JwtCache`, `JwtReuse`, `JwtAnswers`, `Scenarios`, `Decisions`): the token cache with coalesced logins and one
  retry, grouping of alerts, filtering and paging of decisions.
- **Write, reload, undo** (`CaddyfileImport`, `Restore`, `ReloadSagas`, `AccessLog`): handlers that
  change the store, ask Caddy to reload and take the change back when Caddy refuses.
- **Redaction** (`ChannelSecrets`, `TextRedaction`, `AuditScrub`): channels shown without secrets and
  merged back, links redacted inside error texts, and the scrubber of old audit rows.
- **Algorithms** (`Substitution`, `CertWindow`, `Sorting`, `Strings`): placeholder replacement in map
  order, time windows over wrapping 64-bit durations, and shared helpers.

Code that works by updating state is a class or a method with loops, proved against specification
functions; the theorems are about those functions. The store, the senders, Caddy, the clock, logins,
URL parsing and number parsing are inputs: every answer they can give, failures included, is quantified
over. `dafny verify dfyconfig.toml` checks the whole project.

## What is promised and does not hold

Where the code does not do what it, its comments or its messages say, the code is modelled as it is, and
a lemma states exactly when the promise holds:

- A Caddyfile import that Caddy refuses answers "nothing was kept". The undo log of replaced routes is
  replayed forwards, so a route replaced twice (through its host and through an alias) keeps the first
  imported row (`CaddyfileImport.RollbackExactlyWhen`, `TwoHitsNotUndone`, `SharedRouteHitTwice`).
- A restore that Caddy refuses answers "BoltDB rolled back to pre-restore state". The rollback snapshot
  carries no watcher state, so matched state rules fire again (`Restore.RollbackStore`,
  `WatcherRuns.ClearedBitFiresAgain`); and LAPI settings
  that came from the environment stay replaced in the manager (`Restore.AgreementExactlyWhen`,
  `EnvironmentSettingsLost`).
- The access-log handler ignores the error of reading the previous setting and then undoes to an empty one
  (`ReloadSagas.AgreementExactlyWhen`).
- The retry after a rejected token "invalidates and logs in again". When another request already has that
  token in hand in a login in flight, the retry can be given the same token
  (`JwtCache.RetryFreshExactlyWhen`, `JwtReuse.RetryCanReuseRejectedToken`).
- A (URL, machine) pair has a cache key of its own exactly when neither part holds a NUL
  (`JwtCache.KeyIsOwnExactlyWhen`).
- Hosts are meant to be unique across routes (internal/api/routes.go:1501-1504). An import looks up only the
  imported host, not its aliases, in a table built before the loop, so a host requested twice is created
  twice and an alias that another route serves is imported as well (`CaddyfileImport.ImportKeepsUniqueExactlyWhen`,
  `SameHostCreatedTwice`, `ServedAliasCreated`).
- `redactWebhookURL`, `RedactURLsInText` and with them the scrub of a channel are documented idempotent. They
  are exactly when no URL or link in the payload keeps a '%' in its decoded host (and, for the URL fields,
  has a scheme). An IPv6 zone (`http://[fe80::1%25eth0]/hook`) is accepted by the webhook check, and it and
  the transport error that quotes it lose their host at the second pass, so a row already redacted is
  rewritten (`ChannelSecrets.RedactTwiceExactlyWhen`, `TextRedaction.TextTwiceExactlyWhen`,
  `AuditScrub.ChannelTwiceExactlyWhen`, `RowFixedExactlyWhen`, `ZonedErrorScrubbedTwice`).
- A secret that is not a JSON string, or that stands in a `path_rules` array with an entry that is no object,
  survives the scrub of a route (`AuditScrub.RouteExposesExactlyWhen`).
- The preview's substitution would depend on the map order for a status code outside the supported list,
  whose status text is empty (`Substitution.PreviewOrderExactlyWhen`).
- Too many days wrap around to the shortest window instead of being clamped to the longest
  (`CertWindow.DaysClampedExactlyWhen`); an interval with a fraction of a second is not aligned to its own
  grid (`CertWindow.GridExactlyWhen`).
- The decisions filter "unknown" misses the decisions without an origin that its badge counts
  (`Decisions.TotalMatchesCountExactlyWhen`).
- The latest alert of a scenario without a source leaves an older alert's sample beside the new time
  (`Scenarios.StaleSampleExactlyWhen`, `SampleCanBeStale`).
- Discord IDs are de-duplicated as text, so an ID and the same ID with a leading zero are both mentioned
  (`DiscordSender.NobodyTwiceExactlyWhen`, `ZeroPrefixedTwin`); `truncateRunes` returns up to three bytes more
  than its stated limit, for instance on 4001 one-byte characters (`DiscordSender.TruncateRunes`,
  `DescriptionOverLimit`).
- The comment at the eviction floor speaks of 24 hours beyond the cooldown; the code uses 24 hours, which
  is enough exactly up to the largest legal cooldown (`Cooldown.FloorIsTight`).

## Model

| member | source | states |
|---|---|---|
| Cooldown.CooldownLRU.OnCooldown | internal/alerting/cooldown.go:100-112 | a pair is hot exactly when it has an entry younger than the cooldown |
| Cooldown.CooldownLRU.Mark | internal/alerting/cooldown.go:114-118 | overwrites the pair's entry and no other |
| Cooldown.CooldownLRU.EvictStale | internal/alerting/cooldown.go:129-148 | in any visiting order, keeps exactly the young entries of kept rules and counts the others |
| Cooldown.ForgetfulHolds | internal/alerting/cooldown.go:100-148 | after any history of calls the table holds the last mark of a pair exactly when no eviction since then dropped it |
| Cooldown.DroppedIsOld | internal/alerting/cooldown.go:129-148 | an entry of a rule that stayed listed is only dropped at an age of at least the floor |
| Cooldown.EvictionUnobservable | internal/alerting/cooldown.go:100-148 | every query of every history is answered as by a table that never forgets |
| Cooldown.FloorIsTight | internal/alerting/cooldown.go:80-80 | eviction is unobservable in all histories if and only if the cooldown is at most the floor |
| Evaluator.Evaluate | internal/alerting/evaluator.go:124-193 | with valid parameters an evaluation errs exactly when the source lacks the kind of value the rule needs |
| Evaluator.FiresExactlyWhen | internal/alerting/evaluator.go:124-193 | a decided rule fires exactly when the sign of value minus bound is one the operator accepts, or the state is the expected one |
| WatcherLoop.Watcher.EvalOneRule | internal/alerting/watcher.go:253-371 | one rule's evaluation: errors, edge logic, per-channel cooldown, sends, marks and the edge-bit writes, against EvalRule |
| WatcherLoop.Watcher.RunTick | internal/alerting/watcher.go:220-251 | one tick: listing, eviction with the listed rules, every enabled rule in order, against Tick |
| WatcherLoop.Watcher.TryChannel | internal/alerting/watcher.go:329-343 | one channel: cooldown gate for threshold rules, a dispatch to that channel alone, a mark when it fired |
| WatcherLoop.DeliveredExactlyWhen | internal/alerting/dispatcher.go:146-209 | the one-channel dispatch fires exactly when the row loads, is enabled, wants the severity, has a sender and the send works |
| WatcherLoop.JudgeExactly | internal/alerting/watcher.go:255-288 | no verdict exactly when the source is missing, unreadable or its value cannot be evaluated; else the evaluator's |
| WatcherRuns.GuardedRun | internal/alerting/watcher.go:220-371 | in every timed run the table remembers the last send of every listed pair, or that send is older than any legal cooldown |
| WatcherRuns.ThresholdSpacing | internal/alerting/watcher.go:300-371 | two sends of a rule to a channel are at least the cooldown in force apart, with eviction every tick, edits in between and repeated channel ids, while the rule stays listed and the watcher is not restarted |
| WatcherRuns.OwnRule | internal/alerting/watcher.go:264-370 | one evaluation continues the rule's story as designed, and the stored bit stays exact if and only if a needed write succeeds |
| WatcherRuns.StateRuleTick | internal/alerting/watcher.go:220-371 | a tick leaves the bit exact; errors change nothing, a miss ends the episode, a match tries every channel exactly when nothing was delivered yet |
| WatcherRuns.EdgeBitExact | internal/alerting/watcher.go:264-370 | in every undisturbed run, from any stored bit and through restarts, the bit is true exactly when some channel was delivered since the last miss |
| WatcherRuns.OneFirePerEpisode | internal/alerting/watcher.go:264-370 | between two firing ticks of a state rule lies an evaluation that did not match, also across restarts |
| WatcherRuns.ClearedBitFiresAgain | internal/alerting/watcher.go:296-370 | a match with the bit clear tries every channel, whatever was delivered before, and delivers exactly when some send works |
| ThresholdRuns.ExactRun | internal/alerting/watcher.go:220-371 | in every timed run the evicting table and the trace tell the same about every pair |
| ThresholdRuns.ThresholdTurnExact | internal/alerting/watcher.go:253-345 | in every run, at the turn of a threshold rule the trace grows by exactly the reference's events: nothing when disabled, no verdict on errors, and on a match one attempt for each channel not inside the rule's own cooldown, with a send exactly where it works |
| ThresholdRuns.CoolingExactlyWhen | internal/alerting/cooldown.go:100-112 | a pair is inside its cooldown exactly when one of its sends was marked less than the cooldown ago, its rule listed and the watcher up since |
| ThresholdRuns.QuietPairTried | internal/alerting/watcher.go:329-341 | a pair without so recent a send is tried, and reached exactly when the send works |
| Dispatcher.Dispatch | internal/alerting/dispatcher.go:146-221 | the loop over the channel ids yields the collected outcomes and the send results in order |
| Dispatcher.DispatchPartitions | internal/alerting/dispatcher.go:146-221 | every id is fired, failed or skipped; the three are disjoint if and only if no repeated id had outcomes of different classes |
| Dispatcher.DistinctIdsPartition | internal/alerting/dispatcher.go:146-221 | duplicate-free ids are split exactly |
| Dispatcher.DispatchSplits | internal/alerting/dispatcher.go:146-221 | dispatching a concatenation is merging the dispatches, so fired keeps the order |
| Dispatcher.DispatchIsOneByOne | internal/alerting/dispatcher.go:146-221 | dispatching a list is the union of dispatching each id alone |
| Dispatcher.OneMarkPerSend | internal/alerting/dispatcher.go:185-197 | as many send results are recorded as sends attempted, and every fired position was attempted |
| Dispatcher.MarkCarriesResult | internal/alerting/dispatcher.go:185-197 | each attempted send is recorded at its own place with its channel and its error |
| Dispatcher.OutcomeExactly | internal/alerting/dispatcher.go:152-209 | on the answer itself: fired exactly when every gate passes and the send works, skipped exactly when disabled or below the minimum, failed otherwise, each with its reason |
| Dispatcher.DispatchByAnswers | internal/alerting/dispatcher.go:146-209 | of a duplicate-free list exactly the ids whose send works fire, those turned away are skipped and the others fail with their own error |
| Dispatcher.TestSentMeansAllFired | internal/api/alerting_rules.go:462-465 | for any list, the rule test says sent if and only if the list is not empty and every entry fired |
| JwtCache.JwtManager.Invalidate | internal/api/crowdsec_scenarios.go:150-155 | token and expiry are blanked together, the key stays |
| JwtCache.JwtManager.Lookup | internal/api/crowdsec_scenarios.go:170-176 | the cached token is returned exactly on the same key, a token and time left |
| JwtCache.JwtManager.Fill | internal/api/crowdsec_scenarios.go:196-200 | key, token and expiry are written together, the expiry less the margin |
| JwtCache.EveryRunSound | internal/api/crowdsec_scenarios.go:134-207 | in every interleaving the cached triple comes from one login, flights and requests hold tokens of their own key, hits leave the margin, and the flights under way are one per key |
| JwtCache.OneLoginPerKey | internal/api/crowdsec_scenarios.go:178-201 | two logins under way are for different keys |
| JwtCache.KeyDeterminesPair | internal/api/crowdsec_scenarios.go:167-169 | without NUL in the URLs, equal keys mean equal pairs |
| JwtCache.NulMergesPairs | internal/api/crowdsec_scenarios.go:167-169 | with NUL they need not |
| JwtCache.KeyIsOwnExactlyWhen | internal/api/crowdsec_scenarios.go:167-169 | no other pair has the same key if and only if neither URL nor machine holds a NUL |
| JwtCache.TokenMintedForPair | internal/api/crowdsec_scenarios.go:134-207 | every token handed out was minted by a login with the request's own URL and machine, and a cache hit had more than 30 s left |
| JwtCache.NoRetryLoop | internal/api/crowdsec_decision_delete.go:197-212 | no request makes more than two attempts |
| JwtCache.StaleHandout | internal/api/crowdsec_scenarios.go:449-456 | from every state where a flight has a token in hand, some continuation hands that token to the retry |
| JwtCache.RetryFreshExactlyWhen | internal/api/crowdsec_scenarios.go:383-398 | in every reachable state, a retry can only get newly minted tokens if and only if no flight for its key has a token in hand |
| JwtReuse.RetryCanReuseRejectedToken | internal/api/crowdsec_manual_ban.go:479-488 | a reachable state, with the steps, in which the token a request held when it was rejected is handed to its retry |
| JwtAnswers.AnswersExactly | internal/api/crowdsec_scenarios.go:349-398 | in every run a request is served exactly when the last thing that came back was accepted, unavailable exactly when that was a failure, and gives up its credentials only after exactly two refusals, by a response or by the login it waited for |
| JwtAnswers.ToldAtAlways | internal/api/crowdsec_scenarios.go:178-207 | a flight's outcome is what its login step said |
| JwtAnswers.LoginsAreMinted | internal/api/crowdsec_scenarios.go:192-201 | the logins of a run are those of its successful login steps, with their token and expiry |
| JwtAnswers.LookExactly | internal/api/crowdsec_scenarios.go:170-176 | a look into the cache takes the token stored last exactly when it is for the same key, has more than 30 s left and no first retry blanked it |
| JwtAnswers.RecheckExactly | internal/api/crowdsec_scenarios.go:181-190 | the recheck inside a flight does the same, else the flight logs in |
| Substitution.OneMore | internal/api/error_templates.go:473-476 | replacing one more placeholder after a simultaneous pass is a simultaneous pass with it |
| Substitution.Substitute | internal/api/error_templates.go:472-477 | in any order, replacing one after the other equals the simultaneous pass, for every confluent table |
| Substitution.FixturesConfluent | internal/api/error_templates.go:456-465 | the preview's table is confluent for every supported status code |
| Substitution.PreviewSubstitute | internal/api/error_templates.go:445-477 | for every body and supported code the preview is the simultaneous pass, whatever the map order |
| Substitution.OrderIndependentExactlyWhen | internal/api/error_templates.go:473-476 | for brace-delimited keys and brace-free values, the order never matters if and only if no value occurs in another key |
| Substitution.PreviewOrderExactlyWhen | internal/api/error_templates.go:445-477 | for the preview's table that is so if and only if the status code is a supported one |
| Substitution.FixtureEntries | internal/api/error_templates.go:456-465 | the eight placeholders and what each stands for |
| Substitution.ReasonPhrases | internal/api/error_templates.go:446-455 | the status texts |
| Substitution.SinglePlaceholder | internal/api/error_templates.go:472-477 | a body that is one placeholder becomes its value |
| CaddyfileImport.ServedByIsLast | internal/api/caddyfile_import.go:98-103 | a host maps to the last listed route serving it as host or alias, ignoring case |
| CaddyfileImport.CandidateForIsFirst | internal/api/caddyfile_import.go:257-265 | the candidate found is the first that matches ignoring case, or there is none |
| CaddyfileImport.FateJustified | internal/api/caddyfile_import.go:182-238 | a route is replaced only on request and only if it serves the host; one is created only where no route listed before the import serves it; nothing invalid is written |
| CaddyfileImport.FateExactly | internal/api/caddyfile_import.go:195-238 | a usable candidate is created, replaced or skipped with each reason, exactly under the stated conditions, and the row holds the imported fields |
| CaddyfileImport.UnusableExactly | internal/api/caddyfile_import.go:182-194 | a host without a candidate is not found; an unusable one is refused with the parser's reason |
| CaddyfileImport.HostsUniqueExactlyWhen | internal/api/routes.go:1501-1504 | for any writes: hosts stay unique if and only if the kept rows share none with each other or with a row left alone |
| CaddyfileImport.ImportKeepsUniqueExactlyWhen | internal/api/caddyfile_import.go:196-238 | an import keeps hosts unique if and only if no two of its kept rows share a host and none brings an alias that a row left alone serves; the lookup excludes every other clash |
| CaddyfileImport.LookedUpHostFree | internal/api/caddyfile_import.go:196-201 | no row left alone serves the host of an imported one |
| CaddyfileImport.SameHostCreatedTwice | internal/api/caddyfile_import.go:151-156 | a new host requested twice is created twice |
| CaddyfileImport.ServedAliasCreated | internal/api/caddyfile_import.go:196-197 | an imported alias that a listed route serves is created all the same |
| CaddyfileImport.ExistingHosts | internal/api/caddyfile_import.go:93-105 | the table built by the loops answers exactly for the listed routes |
| CaddyfileImport.FindCandidate | internal/api/caddyfile_import.go:257-265 | the scan returns that candidate |
| CaddyfileImport.Handler.WriteOne | internal/api/caddyfile_import.go:182-238 | one requested host gets its fate, the store its row, and a replaced row is returned as it was |
| CaddyfileImport.Handler.WriteAll | internal/api/caddyfile_import.go:181-238 | store, undo logs and response lists after all requests |
| CaddyfileImport.Handler.Rollback | internal/api/caddyfile_import.go:168-179 | deletions, then updates in forward order, any of which may fail |
| CaddyfileImport.Handler.ReloadOrUndo | internal/api/caddyfile_import.go:244-254 | one reload; on refusal the rollback and a second reload |
| CaddyfileImport.Handler.Import | internal/api/caddyfile_import.go:142-255 | store, running configuration and response on every path; after a refused import with a successful undo the store is the old one if and only if the undo is exact |
| CaddyfileImport.EachHostReportedOnce | internal/api/caddyfile_import.go:181-238 | every requested host is reported in exactly one of created, replaced and skipped, in order |
| CaddyfileImport.ApplyAt | internal/api/caddyfile_import.go:181-238 | a row ends as its last replacement, or unchanged |
| CaddyfileImport.LastLogged | internal/api/caddyfile_import.go:206-223 | the last undo entry of a row is the row before its last replacement |
| CaddyfileImport.RolledBackAt | internal/api/caddyfile_import.go:168-179 | what a successful rollback leaves in each row |
| CaddyfileImport.RollbackExactlyWhen | internal/api/caddyfile_import.go:168-179 | the rollback restores the store if and only if no row was replaced twice with a different row in between |
| CaddyfileImport.DistinctTargetsRestore | internal/api/caddyfile_import.go:168-179 | distinct replaced routes are enough |
| CaddyfileImport.RollbackFrame | internal/api/caddyfile_import.go:168-179 | a row nobody replaced survives, whichever undo writes fail |
| CaddyfileImport.RolledBackRow | internal/api/caddyfile_import.go:168-179 | what any rollback leaves: a created row survives exactly when its deletion failed, a replaced one ends as the last update that reached the store |
| CaddyfileImport.TwoHitsNotUndone | internal/api/caddyfile_import.go:168-179 | two different replacements of one row leave the first one behind |
| CaddyfileImport.SharedRouteHitTwice | internal/api/caddyfile_import.go:98-103 | two requested hosts of one route produce those two replacements |
| CaddyfileImport.RefusedImportLeavesBoth | internal/api/caddyfile_import.go:244-252 | store and running configuration are both as before if and only if the undo is exact, whether or not the second reload works |
| Restore.RestoreHandler.ReloadAfterRestore | internal/api/backup_handlers.go:431-442 | which of reload and swap-and-reload runs, and what each outcome leaves |
| Restore.RestoreHandler.RestoreCrowdSecAfterRollback | internal/api/backup_handlers.go:448-457 | the pre-restore row, if there was one, is put back in the manager |
| Restore.RestoreHandler.RestoreBytes | internal/api/backup_handlers.go:223-357 | outcome and whole new state on every path; after a restore or a failed rollback the store holds every table of the backup, after a rollback every old one with the edge bits clear |
| Restore.BothOldOrBothNew | internal/api/backup_handlers.go:267-357 | every path ends with both sides old or both new, except a failed rollback, which is exactly new store and old Caddy |
| Restore.ManagerSettings | internal/caddymgr/manager.go:480-493 | which LAPI settings the manager ends with on each path |
| Restore.RollbackStore | internal/backup/extras.go:118-134 | the rollback restores the whole configuration; the store is exactly the old one if and only if no edge bit was set |
| Restore.AgreementExactlyWhen | internal/api/backup_handlers.go:431-457 | store, manager and Caddy still agree if and only if none of three situations arises: foreign LAPI settings left behind, a restored row no applier took, a failed rollback of a backup that differs from what is served |
| Restore.EveryRestoreRunAgrees | internal/api/backup_handlers.go:267-357 | over every run of restores without those three situations, agreement holds throughout |
| Restore.FirstHarmShows | internal/api/backup_handlers.go:267-357 | right after the first of them in a run, they disagree |
| Restore.EnvironmentSettingsLost | internal/api/backup_handlers.go:448-452 | with settings from the environment, both sides look old but the next reload serves the backup's settings |
| AccessLog.DefaultsNormal | internal/storage/access_log_config.go:108-114 | the built-in redaction list is already in normal form |
| AccessLog.ValidateTwice | internal/storage/access_log_config.go:130-176 | validating what validation produced changes nothing |
| AccessLog.NormalExactlyWhen | internal/storage/access_log_config.go:130-200 | what a setting that validation leaves alone looks like, both ways |
| AccessLog.StoredFields | internal/storage/access_log_config.go:130-176 | what is stored for a submitted setting, field by field, and when it is refused |
| AccessLog.DefaultIsNormal | internal/storage/access_log_config.go:118-126 | the default setting is normal |
| AccessLog.ZeroBecomes | internal/storage/access_log_config.go:210-240 | the zero setting is stored as the default one with compression off |
| ReloadSagas.Referencing | internal/api/forward_auth_provider.go:386-391 | lists exactly the routes that name the provider |
| ReloadSagas.Admin.DoCreateProvider | internal/api/forward_auth_provider.go:231-274 | create, reload, delete again on refusal |
| ReloadSagas.Admin.DoUpdateProvider | internal/api/forward_auth_provider.go:285-345 | update keeping an empty secret, reload, put the old row back |
| ReloadSagas.Admin.DoDeleteProvider | internal/api/forward_auth_provider.go:363-412 | refused while referenced, else delete, reload, create again |
| ReloadSagas.Admin.DoCreateRoute | internal/api/routes.go:1801-1815 | existence check, create, reload, delete again |
| ReloadSagas.Admin.DoUpdateRoute | internal/api/routes.go:2507-2524 | existence check, update, reload, put the old row back |
| ReloadSagas.Admin.DoDeleteRoute | internal/api/routes.go:2761-2788 | delete, reload, restore the row |
| ReloadSagas.Admin.DoPutLog | internal/api/access_log.go:86-112 | store the normalised setting, reload, put back what was read |
| ReloadSagas.UndoRestores | internal/api/forward_auth_provider.go:266-412 | a successful undo restores everything Caddy sees, except an access log whose old value was never read |
| ReloadSagas.StepKeepsSound | internal/api/forward_auth_provider.go:186-200 | every request keeps references intact and the stored log setting normal, whatever fails |
| ReloadSagas.LandsExactlyWhen | internal/api/forward_auth_provider.go:231-400 | when the write of each request lands |
| ReloadSagas.LandsAsSent | internal/api/forward_auth_provider.go:318-331 | only the named row changes, to what was sent, an empty provider secret apart |
| ReloadSagas.SecretChangesOnlyWhenGiven | internal/api/forward_auth_provider.go:314-320 | a provider secret changes only by an update that carries one |
| ReloadSagas.AgreementExactlyWhen | internal/api/access_log.go:95-112 | from agreement, a request ends in agreement if and only if it does not diverge |
| ReloadSagas.EveryRunSound | internal/api/forward_auth_provider.go:363-412 | in no reachable state does a forward-auth route name a missing provider |
| ReloadSagas.EveryRunAgrees | internal/api/forward_auth_provider.go:231-422 | a run without a divergence agrees after every request |
| ReloadSagas.FirstDivergenceShows | internal/api/access_log.go:104-112 | right after the first divergence of a run, store and Caddy disagree |
| ChannelSecrets.RedactTwiceExactlyWhen | internal/api/audit_redaction.go:43-52 | redacting a URL twice is redacting it once if and only if nothing is printed, or the URL has a scheme and no '%' in its decoded host |
| ChannelSecrets.SchemelessLosesHost | internal/api/audit_redaction.go:43-52 | a URL without scheme, as an old row may hold, loses its host at the second pass |
| ChannelSecrets.AcceptedUrlStableExactlyWhen | internal/alerting/config.go:79-88 | for the URLs the webhook check accepts, the condition is '%' not in the decoded host |
| ChannelSecrets.ZonedHostRewritten | internal/api/audit_redaction.go:43-52 | an accepted URL with an IPv6 zone is rewritten by the second pass |
| ChannelSecrets.ViewHidesSecrets | internal/api/alerting_channels.go:125-158 | the shown webhook depends on no header value and on no more of the URL than scheme and host |
| ChannelSecrets.MergeHeaders | internal/api/alerting_channels.go:332-373 | in any order: refused exactly when some header cannot be resolved, else every value resolved |
| ChannelSecrets.MergeWebhook | internal/api/alerting_channels.go:323-384 | a typed URL or header is stored as typed; an empty one, the placeholder or the shown URL keeps the stored value; refused exactly when a header cannot be resolved |
| ChannelSecrets.OtherKindsSaved | internal/api/alerting_channels.go:385-411 | the same for the Discord URL and the email password |
| ChannelSecrets.WebhookRoundTrip | internal/api/alerting_channels.go:321-384 | saving the shown webhook stores what was there, up to nil versus empty headers |
| ChannelSecrets.SaveUntouched | internal/api/alerting_channels.go:242-384 | load and save succeeds if and only if no stored header is the placeholder, and then changes nothing |
| ChannelSecrets.DiscordRoundTrip | internal/api/alerting_channels.go:385-400 | saving the shown Discord channel stores what was there |
| ChannelSecrets.EmailRoundTrip | internal/api/alerting_channels.go:401-411 | saving the shown email channel stores what was there |
| ChannelSecrets.SaveStoresNoPlaceholder | internal/api/alerting_channels.go:332-373 | a successful save stores no header equal to the placeholder |
| ChannelSecrets.SaveThenSaveUntouched | internal/api/alerting_channels.go:321-384 | after any successful save, saving untouched succeeds and changes nothing |
| ChannelSecrets.LostSecrets | internal/api/alerting_channels.go:208-232 | the URL first, then the damaged header keys in byte order |
| ChannelSecrets.LostSecretsExact | internal/api/alerting_channels.go:197-236 | the list names exactly the damaged secrets |
| ChannelSecrets.LostSecretsUnique | internal/api/alerting_channels.go:189-196 | the list does not depend on map order |
| ChannelSecrets.FairSaveLosesNothing | internal/api/alerting_channels.go:321-384 | when each submitted secret is what was shown, empty or placeholder-free, no secret becomes lost |
| ChannelSecrets.FairDiscordSave | internal/api/alerting_channels.go:385-400 | the same for Discord |
| ChannelSecrets.EmbeddedPlaceholderIsStored | internal/api/alerting_channels.go:336-337 | a value that merely contains the placeholder is stored and then reported lost |
| TextRedaction.ShortcutIsExact | internal/storage/url_redact.go:63-66 | leaving out texts without "://" changes nothing |
| TextRedaction.TextTwiceExactlyWhen | internal/storage/url_redact.go:63-97 | redacting a text twice is redacting it once if and only if no link in it keeps a '%' in its decoded host |
| TextRedaction.RedactUrlsTwiceExactlyWhen | internal/storage/url_redact.go:63-97 | the same with the shortcut |
| TextRedaction.NoNewLink | internal/storage/url_redact.go:54-54 | where no link starts, redaction makes none start |
| TextRedaction.TextTellsOnlyPieces | internal/storage/url_redact.go:56-62 | a redacted text is the text around the links and, of each link, at most scheme and host |
| TextRedaction.ZonedErrorRewritten | internal/storage/url_redact.go:70-77 | the transport error for `http://[fe80::1%25eth0]/hook` changes at the second pass |
| AuditScrub.Payload.SetString | internal/api/audit_redaction.go:232-251 | rewrites one string; the flag is true exactly when the object changed |
| AuditScrub.Payload.ScrubHeaders | internal/api/audit_redaction.go:149-162 | in any order, redacts exactly the chosen non-empty string values; exact flag |
| AuditScrub.Payload.EditHealthCheck | internal/api/audit_redaction.go:166-170 | edits the nested headers and stores them back; exact flag |
| AuditScrub.Payload.EditPathRules | internal/api/audit_redaction.go:127-144 | edits every rule when all entries read as objects, else none; exact flag |
| AuditScrub.Payload.ScrubRoute | internal/api/audit_redaction.go:117-144 | all five edits run; the result is the field-by-field reference; exact flag |
| AuditScrub.Payload.ScrubChannel | internal/api/audit_redaction.go:172-203 | last error and configuration; the result is the reference; exact flag |
| AuditScrub.ScrubPayload | internal/api/audit_redaction.go:99-115 | any payload: the reference value, changed exactly when it differs |
| AuditScrub.ScrubEvent | internal/api/audit_redaction.go:75-95 | both payloads of an event, changed exactly when the event differs |
| AuditScrub.RouteTwice | internal/api/audit_redaction.go:117-144 | scrubbing a route twice is scrubbing it once |
| AuditScrub.ConfigTwiceExactlyWhen | internal/api/audit_redaction.go:183-202 | scrubbing a configuration twice is scrubbing it once if and only if each URL in it has a scheme and no '%' in its decoded host, or prints nothing |
| AuditScrub.ChannelTwiceExactlyWhen | internal/api/audit_redaction.go:172-203 | scrubbing a channel twice is scrubbing it once if and only if no link of its last error keeps a '%' in its decoded host and its URLs meet the condition above |
| AuditScrub.UnnamedUntouched | internal/api/audit_redaction.go:117-203 | fields the scrubber does not name keep their values, and no key appears or disappears |
| AuditScrub.HeaderEdited | internal/api/audit_redaction.go:149-162 | a chosen non-empty text turns into the placeholder, every other header stays |
| AuditScrub.NestedUnnamedUntouched | internal/api/audit_redaction.go:127-170 | inside the named fields only the named parts change |
| AuditScrub.RouteHoldsNoSecret | internal/api/audit_redaction.go:117-170 | no credential header text and no password hash text survives, in readable path rules neither |
| AuditScrub.RouteExposesExactlyWhen | internal/api/audit_redaction.go:117-170 | a secret survives if and only if it was not a text, or stood in a path-rule array with an entry that does not read as an object |
| AuditScrub.ChannelHoldsNoSecret | internal/api/audit_redaction.go:172-203 | in a scrubbed channel no header text, no SMTP password text and no more of a URL or a link in the last error than scheme and host survives |
| AuditScrub.WebhookViewFixed | internal/api/alerting_channels.go:138-157 | a webhook row stored redacted is left alone if and only if the stored URL met that condition |
| AuditScrub.DiscordViewFixed | internal/api/alerting_channels.go:170-185 | the same for Discord |
| AuditScrub.EmailViewFixed | internal/api/alerting_channels.go:158-169 | an email row stored redacted is left alone |
| AuditScrub.RowFixedExactlyWhen | internal/api/alerting_channels.go:125-137 | a row stored redacted is left alone if and only if its configuration is and the last error it came from held only stable links |
| AuditScrub.ZonedErrorScrubbedTwice | internal/api/audit_redaction.go:172-182 | the transport error of a webhook with an IPv6 zone is rewritten by a second scrub |
| Scenarios.CountIsGroupSize | internal/api/crowdsec_scenarios.go:530-540 | a row counts the alerts of its name |
| Scenarios.SingleAlert | internal/api/crowdsec_scenarios.go:530-558 | the row of one alert: name, start or creation time, scope, value or address |
| Scenarios.LastIsLatest | internal/api/crowdsec_scenarios.go:542-550 | a row's time is the latest of its group, or none when none parsed |
| Scenarios.SampleAt | internal/api/crowdsec_scenarios.go:549-558 | from the first latest alert on, time and sample no longer change |
| Scenarios.SampleIsLastSourcedRecord | internal/api/crowdsec_scenarios.go:549-558 | the sample is that of the last alert of the group that is newer than all before it and has a source; without one it is empty |
| Scenarios.StaleSampleExactlyWhen | internal/api/crowdsec_scenarios.go:549-558 | it is that of an older alert than the time if and only if the first latest alert has no source and an earlier record has one |
| Scenarios.SampleIsFirstLatest | internal/api/crowdsec_scenarios.go:549-558 | with a source there, time and sample come from the same alert |
| Scenarios.SampleCanBeStale | internal/api/crowdsec_scenarios.go:549-558 | without, they come from different alerts |
| Scenarios.CountsAddUp | internal/api/crowdsec_scenarios.go:530-540 | the counts of the groups sum to the number of alerts |
| Scenarios.FillBuckets | internal/api/crowdsec_scenarios.go:529-560 | one accumulator per name that occurs, holding what the alerts of that name give |
| Scenarios.Aggregate | internal/api/crowdsec_scenarios.go:522-580 | one row per name that occurs, strictly ordered by count and name |
| Scenarios.RowsByCountThenName | internal/api/crowdsec_scenarios.go:573-578 | more alerts first, then names in byte order |
| Scenarios.AggregationUnique | internal/api/crowdsec_scenarios.go:561-580 | that determines the result, so map order cannot show |
| Scenarios.TotalAlerts | internal/api/crowdsec_scenarios.go:362-365 | the reported total is the number of alerts |
| Decisions.ParseLimitOffset | internal/api/crowdsec_decisions.go:396-414 | accepted exactly in range, with the given numbers or the defaults |
| Decisions.CountByOrigin | internal/api/crowdsec_decisions.go:285-292 | the count of every origin, a missing one counted as unknown |
| Decisions.OriginsAddUp | internal/api/crowdsec_decisions.go:285-292 | the counts sum to the full list |
| Decisions.FilterInPlace | internal/api/crowdsec_decisions.go:294-303 | overwriting the list it reads gives the pure filter and leaves the tail |
| Decisions.FilterExact | internal/api/crowdsec_decisions.go:294-303 | the filter keeps every matching decision with its multiplicity and no other |
| Decisions.FilterAppends | internal/api/crowdsec_decisions.go:294-303 | filtering goes piece by piece, so order is kept |
| Decisions.TotalMatchesCountExactlyWhen | internal/api/crowdsec_decisions.go:285-305 | the filtered total is the origin's count, except for unknown when some decision has no origin |
| Decisions.PagesTile | internal/api/crowdsec_decisions.go:307-318 | consecutive pages cover the list exactly, in order |
| Decisions.PageExact | internal/api/crowdsec_decisions.go:307-318 | a page is as long as limit and rest allow and holds the entries from the offset on |
| Decisions.TakePage | internal/api/crowdsec_decisions.go:307-318 | the slice is in range for every accepted limit and offset |
| Decisions.ListDecisions | internal/api/crowdsec_decisions.go:277-328 | counts over everything, total and page over the filtered list |
| CertWindow.ParseDurationParam | internal/api/cert_events_handler.go:303-341 | every accepted duration is within its bounds, wrap-around included; refused exactly when it does not parse to a positive number |
| CertWindow.PlainParam | internal/api/cert_events_handler.go:303-341 | a duration in Go notation is taken as it is or moved to the nearer bound; none gives the default |
| CertWindow.DaysClampedExactlyWhen | internal/api/cert_events_handler.go:310-323 | a day count yields its clamped duration if and only if it fits or wraps to the cap or above |
| CertWindow.DayParamExactlyWhen | internal/api/cert_events_handler.go:303-323 | the same for the parameter as it is parsed |
| CertWindow.LongestDayCountWraps | internal/api/cert_events_handler.go:321-321 | 106752 days become one hour |
| CertWindow.IntervalAtLeastAnHour | internal/api/cert_events_handler.go:379-379 | the divisor is at least 3600 |
| CertWindow.WindowEndExactlyWhen | internal/api/cert_events_handler.go:374-382 | the end is the least aligned instant after now if and only if now is not before the epoch or aligned |
| CertWindow.SameWindowExactlyWhen | internal/api/cert_events_handler.go:374-382 | two instants get the same window if and only if they are in the same interval |
| CertWindow.GridExactlyWhen | internal/api/cert_events_handler.go:378-388 | the end is on the grid of the interval at all times if and only if the interval is whole seconds |
| CertWindow.WindowBounded | internal/api/cert_events_handler.go:267-289 | at most 2160 intervals, and at most an interval ahead |
| CertWindow.Window | internal/api/cert_events_handler.go:343-388 | the two parameters and the clock to an aligned window, or a bad request exactly when one does not parse |
| CleanList.CleanNames | internal/alerting/sender_discord.go:100-119 | the loop trims, drops empties and duplicates; the result is clean |
| CleanList.CleanStep | internal/storage/access_log_config.go:183-200 | an entry is kept, trimmed and in order, exactly when it is not blank and no earlier entry has its key |
| CleanList.CleanTwice | internal/alerting/sender_discord.go:100-119 | cleaning a clean list changes nothing |
| CleanList.TrimExactly | internal/alerting/sender_discord.go:107-107 | trimming takes off exactly the blanks at both ends |
| DiscordSender.RenderMentionLine | internal/alerting/sender_discord.go:237-249 | users, then roles, joined by spaces |
| DiscordSender.LineRoundTrip | internal/alerting/sender_discord.go:237-249 | reading the line back gives exactly the IDs, one to one and in order |
| DiscordSender.DefaultsTwice | internal/alerting/sender_discord.go:175-184 | filling defaults twice is filling them once |
| DiscordSender.ParseAgain | internal/alerting/sender_discord.go:187-196 | what parsing returns parses again, to itself |
| DiscordSender.AcceptedExactlyWhen | internal/alerting/sender_discord.go:143-196 | which configurations are accepted, and what becomes of each field |
| DiscordSender.Send | internal/alerting/sender_discord.go:294-336 | content and allow-lists of the payload, absent when no one is mentioned |
| DiscordSender.ParseAndSend | internal/alerting/sender_discord.go:143-336 | for every accepted configuration the line sent is the line measured, at most 2000 characters, with at most 100 distinct numeric IDs per allow-list, matching the tokens one to one |
| DiscordSender.SameNumberExactlyWhen | internal/alerting/sender_discord.go:128-139 | two IDs are the same number if and only if they agree after leading zeros |
| DiscordSender.NobodyTwiceExactlyWhen | internal/alerting/sender_discord.go:100-139 | a cleaned list mentions nobody twice if and only if its entries differ after leading zeros |
| DiscordSender.ZeroPrefixedTwin | internal/alerting/sender_discord.go:100-119 | cleaning keeps an ID and its zero-prefixed twin, and both are allowed |
| DiscordSender.TruncateRunes | internal/alerting/sender_discord.go:273-285 | cuts at a character boundary, keeps as much as fits; within the limit if and only if the text fits or the ellipsis fits behind every prefix that does |
| DiscordSender.PlainTextOverLimit | internal/alerting/sender_discord.go:263-285 | one-byte characters that do not fit always end over the limit |
| DiscordSender.DescriptionOverLimit | internal/alerting/sender_discord.go:307-319 | 4001 of them with the limit of 4000 do |

## Left out

- Reload timeouts: a reload that times out may still complete in the background (internal/caddymgr/manager.go:603-667); a failed reload is taken to leave the old configuration, as internal/api/backup_handlers.go:315-318 states.
- Concurrent admin requests: handlers run one at a time, the single-writer assumption of internal/api/routes.go:1506-1509; only the token cache is modelled with interleavings.
- A manager that has not been started: `ApplyCrowdSecConfig` then skips the reload.
- Context cancellation, request decoding, HTTP status codes, audit emission, log lines, timestamps and `UpdatedAt` of rows.
- Telemetry of rules and channels other than `LastMatched`, the last-used stamps of API tokens and an automatically detected server position, all of which a restore also clears.
- Sentinel resolution and validation inside a backup import: the resolved snapshot is an input.
- Restore.BothOldOrBothNew: does not cover `applyRestoredSettings`, which pushes restored settings into running services after success.
- References from path rules to forward-auth providers: the code deliberately does not guard them (internal/api/handler.go:1379-1383).
- The enable and maintenance toggles of a route, which rewrite it with its provider unchanged, and routes written by a restore, which bypass the existence check.
- Validation of provider and route requests beyond the existence check: accepted or not is an input.
- `url.Parse`, `IsSensitiveHeader`, `strconv.Atoi` and `time.ParseDuration`: parameters. Of `url.Parse` is assumed that a link keeps its scheme and has a host no longer than what follows, without '/', in which a character that ends links stands only behind a '%'; and that a printed URL is refused without a scheme, read back as it is without '%' in the host, and otherwise refused or read with a shorter host.
- A channel whose stored configuration does not decode for its kind: it is then shown and audited as it is.
- Letter case and white space outside ASCII, duplicate keys in JSON objects, and NaN in rule thresholds.
- Message formatting: reasons of skipped hosts are a datatype, and alert texts and templates are not modelled.
- Spacing of sends across a restart: the cooldown table is in memory only, as internal/alerting/cooldown.go:49-51 says.
- Operator edits in the middle of a tick: they take effect between ticks, since a tick works on the rows listed at its start.
- WatcherRuns.EdgeBitExact: assumes that the rule's edge writes succeed; OwnRule says what one failed write does.
- Times before the year 1 in alerts, which Go would order before its zero time.
- DiscordSender.Send: embeds, colours and the HTTP exchange are not part of the payload.
- DNS providers, error templates, external certificates and managed domains: those handlers do not undo, or undo through helpers outside these files.
- Event lists, GeoIP, sessions, login, CSRF and body limits: parameter checks and pass-through reads that would only add easy members.
