# syncctl, modelled in Dafny

Proofs about the parts of syncctl that hold state, run concurrently or print text for another program
to read. `dafny verify dfyconfig.toml` checks all of it.

* **Webhook receiver** (`Webhook.dfy`): the eight-slot semaphore and the per-project debounce as a
  transition system. The atomic sections of the handler goroutines interleave freely, and the select
  between timer and cancellation may go either way. `Receiver` is the same system as it updates its
  state, one method for each atomic section.
* **Failover controller** (`Health.dfy`, `RemoteHost.dfy`, `Promotion.dfy`, `RoleSwap.dfy`,
  `Failover.dfy`): the failure counter over all histories of health rounds, and promotion and role swap
  as command sequences on remote hosts where any call can fail before, during or after its effect.
* **Sampling and sweeping** (`Sampling.dfy`, `FetchPool.dfy`, `GitPaths.dfy`, `ProjectPath.dfy`): the
  in-place shuffle behind the fsck sample, the bounded fetch pool under every schedule, and the paths
  that repositories are fetched to.
* **Printers and their readers** (`ShellQuote.dfy`, `ConnInfo.dfy`, `PasswordScan.dfy`,
  `Redaction.dfy`, `PgSetup.dfy`, `SshExec.dfy`, `UriHost.dfy`, `RegistryAuth.dfy`): each printer against a
  reader written from the standard, or against the repository's own parser.
* **Configuration** (`EnvExpansion.dfy`, `ConfigLoad.dfy`): the secret check and the expansion as two
  walks over one tree, and what their composition guarantees.

`Util.dfy` and `Splitting.dfy` hold the shared vocabulary.

## Where code and intent differ

The models follow the code. These are the places where a comment, a document or the evident intent says
something else; each is a proved statement.

* Debouncing is described as preventing concurrent fetches of one project. It cancels the older fetch but
  does not wait for it, so it does prevent them exactly if cancelled fetches return within less than the
  debounce delay (`Webhook.NoOverlapIff`, `Webhook.FetchesCanOverlap`).
* Auto-failover has no latch: every failing round from the third on promotes again, starting with a stop
  of the services of the host that was promoted (`Health.OutageAttempts`, `Promotion.RepeatStopsNewPrimary`).
* `docs/architecture.md` and the comment on `Promote` list the key comparison after the promotion or not
  at all; the code makes it a precondition (`Promotion.ChecksFirst`).
* The storages update ends in `|| true`, so a promotion or role swap can succeed without it
  (`Promotion.PromotedIff`, `RoleSwap.DoneIff`).
* The check of the data directory pipes `ls` into `head`, so a failed listing passes for an empty
  directory; only pg_basebackup's own refusal then protects the data (`RoleSwap.BackupStartsEmpty`,
  `RoleSwap.PopulatedSurvives`).
* A cancelled fetch sweep can report OK without having fetched anything; OK is reliable exactly for sweeps
  that cannot be cancelled (`FetchPool.CancelledSweepReportsOk`, `FetchPool.OkMeansAllFetchedIff`).
* The containment test is exact for a root whose cleaned form ends in a name, and only then
  (`GitPaths.ContainmentIff`).
* libpq values are quoted for a space, a quote or a backslash, but not for other white space
  (`ConnInfo.DsnRoundTripIff`).
* Redaction scans without regard to the DSN's quoting. A quoted user that ends in `password=`, or a quoted
  host that does before a bare user, makes the password visible (`Redaction.RedactionNonInterference`). In
  the printed pg_basebackup command line so does a data directory with an unclosed `password='`, unless a
  quoted host or user closes it (`Redaction.CommandLineNonInterference`).
* A port such as `+22` and hosts such as `a%zz` or a bracketed `a:b` are accepted and printed, but RFC 3986
  allows none of them (`SshExec.StandardReaderAgrees`); a destination whose host holds one colon reads as
  host and port (`SshExec.DestinationReadsBack`).
* Escapes in quoted challenge values are not undone, which always loses a value (`RegistryAuth.FieldsRecoveredIff`).
* A `primary_conninfo` line without quotes is said to be handled, but gets a closing quote only
  (`PgSetup.UnquotedLineBreaks`); a connection string that ends in an open value swallows the application
  name (`PgSetup.EditKeepsSettings`).
* PostgreSQL takes the last line for a setting, and the code edits the first. In a directory copied from a
  former standby the line that pg_basebackup appended stays without a name (`PgSetup.EffectiveLine`).

## Model

| member | source | states |
|---|---|---|
| `Webhook.NextKeeps` | internal/webhook/webhook.go:113-268 | The inductive invariant of the receiver is kept by every atomic section of every interleaving: the pending map, the order of registrations, who pre-empted whom, each trigger's own history, the slots |
| `Webhook.Answers` | internal/webhook/webhook.go:113-159 | A delivery is answered 405, 401, 400, 503 or 200 by its method, its token, its body, its project path and the slots in use, and accepted exactly if it is a POST with the token whose project path is a route while fewer than eight slots are in use |
| `Webhook.DeliveriesAreTriggers` | internal/webhook/webhook.go:133-168 | In every run the triggers are, in order, those of the deliveries that pass the tests while fewer than eight goroutines are in flight, each for its own delivery's project; slots in use are the accepted deliveries less the slots given back |
| `Webhook.Recorded` | internal/webhook/webhook.go:231-267 | What the state records of a trigger is what happened in the run: whether its parent ended, when it registered, and when and under which context its fetch started |
| `Webhook.PendingIsLive` | internal/webhook/webhook.go:231-258 | In every run, a registered trigger that has not cleaned up and was not pre-empted is exactly the pending entry of its project |
| `Webhook.OneLivePerProject` | internal/webhook/webhook.go:231-258 | Hence at most one registered trigger of a project that has not cleaned up has a context that the manager left live |
| `Webhook.OneLiveFetch` | internal/webhook/webhook.go:231-268 | Of the fetches of a project that are under way, at most one has a context that is not done |
| `Webhook.TwoLiveContexts` | internal/webhook/webhook.go:246-258 | Two contexts of one project are live at once only if one of their triggers is between its cleanup and its deferred cancel |
| `Webhook.CleanupSparesNewer` | internal/webhook/webhook.go:248-258 | A cleanup removes its own entry if nobody replaced it, and never another |
| `Webhook.PushCovered` | internal/webhook/webhook.go:231-268 | At every moment of every run, each registered push has a last trigger of its project that no other trigger has pre-empted, and that one is still in its debounce or has started a fetch under a live context, no earlier than the debounce delay after the push registered, unless its own parent ended |
| `Webhook.NoPushLost` | internal/webhook/webhook.go:133-268 | In every run, once all triggers finished, the map is empty and for every accepted delivery the last trigger of its project, which no other trigger cancelled before or during its fetch, fetched under a live context at least two seconds after the delivery's trigger registered, unless its own parent ended |
| `Webhook.LastFetchesLive` | internal/webhook/webhook.go:260-267 | The last trigger of a project is never pre-empted and fetches under a live context unless its own parent ended |
| `Webhook.FollowedNeverLive` | internal/webhook/webhook.go:260-267 | A trigger followed by another of its project within two seconds never starts a fetch under a live context, whichever branch a select picks |
| `Webhook.LiveIffLast` | internal/webhook/webhook.go:205-268 | In a burst with gaps below two seconds a trigger fetches under a live context if and only if none succeeds it, and then none cancels it either |
| `Webhook.BurstFetchesOnce` | internal/webhook/webhook.go:205-268 | Such a burst has exactly one live fetch, that of the one trigger without a successor, which nobody pre-empts |
| `Webhook.SlotsConserved` | internal/webhook/webhook.go:148-161 | Slots in use equal the handler goroutines between acquire and release, never more than eight; the pending map is never larger |
| `Webhook.DeliveryEffect` | internal/webhook/webhook.go:113-185 | In every run, a delivery gets 503 if and only if it passes the tests and eight handler goroutines are in flight, and is accepted if and only if it passes with fewer, as one more trigger of its own project; all but acceptance leave the receiver untouched, so a 503 cannot pre-empt a sync |
| `Webhook.OwnStepsDrain` | internal/webhook/webhook.go:231-268 | Every step a trigger takes by itself lowers a measure over the phases |
| `Webhook.SchedulesDrain` | internal/webhook/webhook.go:231-268 | However a run goes on without deliveries, the triggers take no more steps than there was work left |
| `Webhook.NeverStuck` | internal/webhook/webhook.go:231-268 | While a trigger is unfinished there were fewer, and one more is possible after the debounce delay |
| `Webhook.Drains` | internal/webhook/webhook.go:160-182 | From every reachable state, without new deliveries, time and the triggers' own steps lead to a state with all done, all slots free and an empty map |
| `Webhook.OverlapNeedsDelay` | internal/webhook/webhook.go:235-267 | Two fetches of one project are under way together only if the older was pre-empted and at least the debounce delay has passed since the newer registered |
| `Webhook.NoOverlapIff` | internal/webhook/webhook.go:205-268 | No run has two fetches of one project under way together if and only if pre-empted triggers leave their select and their fetch within less than two seconds after a successor registers |
| `Webhook.FetchesCanOverlap` | internal/webhook/webhook.go:205-268 | Otherwise, for every project path the handler accepts, there is such a run, the older fetch under a cancelled context |
| `Webhook.CancelledMayStillFetch` | internal/webhook/webhook.go:260-267 | For every valid project there is a run in which a cancelled trigger's select picks the timer and calls the fetch with a cancelled context |
| `Webhook.Receiver.HandleWebhook` | internal/webhook/webhook.go:113-185 | The handler answers with the status that the request and the slots call for; an accepted delivery leaves one more trigger, of its own project, any other leaves the receiver as it was; the invariant is kept |
| `Webhook.Receiver.Screen` | internal/webhook/webhook.go:114-146 | The chain of tests before the semaphore, each with its status; what passes is a POST with the token for a route |
| `Webhook.Receiver.Admit` | internal/webhook/webhook.go:148-160 | Takes a slot and starts one goroutine, or changes nothing when all eight are in use |
| `Webhook.Receiver.Trigger` | internal/webhook/webhook.go:231-240 | The locked section of Trigger: cancels the entry in place and becomes the entry |
| `Webhook.Receiver.Fetch` | internal/webhook/webhook.go:260-267 | The timer branch: the fetch starts under whatever the context is by then |
| `Webhook.Receiver.Return` | internal/webhook/webhook.go:260-267 | The cancelled branch, or the end of the fetch |
| `Webhook.Receiver.CleanUp` | internal/webhook/webhook.go:248-258 | The deferred, identity-checked removal |
| `Webhook.Receiver.CancelSelf` | internal/webhook/webhook.go:246 | The deferred cancel of the own context, after the removal |
| `Webhook.Receiver.Release` | internal/webhook/webhook.go:161 | The deferred release of the slot, last |
| `Health.CountHealthFailures` | internal/failover/failover.go:132-140 | The polling loop returns the number of URLs that did not answer 200 |
| `Health.FailsIsTrailing` | internal/failover/failover.go:97-128 | For every history, consecutiveFails is the length of the run of failing loop rounds at its end; direct probes do not count |
| `Health.ThreeFailsMeanDown` | internal/failover/failover.go:105-106 | Three consecutive failures imply primaryDown |
| `Health.DownIff` | internal/failover/failover.go:97-128 | primaryDown holds if and only if, since the last healthy loop round, there were three failing loop rounds or one failing direct probe |
| `Health.SinceHealthyIs` | internal/failover/failover.go:121-127 | "Since the last healthy loop round" is the part of the history behind it |
| `Health.AttemptsIff` | internal/failover/failover.go:99-117 | The controller acts in exactly those loop rounds that are the third or a later one of a failing run |
| `Health.OutageAttempts` | internal/failover/failover.go:105-117 | Nothing latches: an outage of n rounds makes n - 2 attempts |
| `Health.QuorumAboveUrls` | internal/failover/failover.go:48-64 | A quorum above the number of health URLs never declares the primary down, whatever they answer |
| `Health.QuorumWithinUrls` | internal/failover/failover.go:48-64 | Any other quorum does, once no URL answers for three rounds |
| `RemoteHost.SentIsPrefix` | internal/failover/failover.go:231-241 | However commands turn out, those sent are a prefix of the list, all of it on success |
| `RemoteHost.SentAfterSuccess` | internal/failover/failover.go:335-344 | A command is sent if and only if every one before it succeeded |
| `RemoteHost.Machine.Ssh` | internal/failover/failover.go:470-479 | One ssh call: its effect on the host and what the caller sees of it |
| `RemoteHost.Machine.SshAll` | internal/readonly/readonly.go:57-68 | The commands of one step, up to the first that fails |
| `Promotion.TargetPermutes` | internal/failover/failover.go:149-188 | With unique names, no reordering of the secondaries changes the auto-failover target, any lookup, or the site the role swap copies from |
| `Promotion.TargetIff` | internal/failover/failover.go:149-188 | Auto-failover promotes the first secondary that promote_secondary names, or the only one where it names none, and none otherwise; the role swap copies from the site given by the same rule for its own argument |
| `Promotion.ChecksFirst` | internal/failover/failover.go:263-282 | Liveness and key parity are decided before any command goes out; behind them the promotion is one run of six commands |
| `Promotion.PromotionSafety` | internal/failover/failover.go:216-253 | For every outcome of every command: those sent are a prefix of stop, promote, three to lift the write suppression, start; Postgres changes only to a primary, only if forced or recorded as down, with keys not known to differ, and only after the services were stopped |
| `Promotion.HeldBackLeavesHost` | internal/failover/failover.go:222-241 | A dry run, disabled failover, fewer silent URLs than the quorum without force or a recorded outage, or differing keys leave the host untouched |
| `Promotion.PromotedIff` | internal/failover/failover.go:222-252 | Success holds exactly for a dry run, or with failover enabled, the primary forced aside, recorded as down or silent on at least the quorum of its URLs, keys not known to differ, an accepted address and six commands that work but for the storages update, which may fail silently; then services are up over a primary, registry and Sidekiq are writable, and storages are open unless that update failed |
| `Promotion.HistoryIs` | internal/failover/failover.go:389-405 | Force or a recorded outage adds no observation; otherwise a promotion adds one probe, failing if at least the quorum of URLs did not answer 200 |
| `Promotion.AutoPassesGate` | internal/failover/failover.go:389-396 | A promotion by the loop needs no probe |
| `Promotion.RepeatStopsNewPrimary` | internal/failover/failover.go:105-117 | A failing round after a completed promotion stops the new primary's services again and, where promoting a primary fails, leaves them stopped |
| `RoleSwap.BackupStartsEmpty` | internal/failover/failover.go:306-333 | pg_basebackup starts exactly if the steps before it passed; then services are down and the data directory is empty if and only if it was wiped or empty before; data can be left in place only behind a listing that failed silently |
| `RoleSwap.PopulatedSurvives` | internal/failover/failover.go:419-438 | Without the wipe flag a populated data directory is unchanged and the call fails, whatever else happens |
| `RoleSwap.DoneIff` | internal/failover/failover.go:335-347 | Success holds exactly if the directory was wiped or empty and every command worked but two that may fail silently, the listing of an empty directory and the storages update; then services are up over a standby of the new primary with writes suppressed, the storages list only if its update worked |
| `RoleSwap.PassfileRemoved` | internal/failover/failover.go:300-304 | On every exit the last command is the removal of the passfile, which is gone whenever that takes effect |
| `RoleSwap.NothingSent` | internal/failover/failover.go:286-294 | Disabled failover, a name that no secondary has, or no name where there is not exactly one secondary ends the call with its verdict and no command, and a dry run sends none; any other call swaps roles with the one site meant and, to an accepted address, sends a prefix of its commands, all on success, and then the removal of the passfile |
| `RoleSwap.CommandsAre` | internal/failover/failover.go:306-333 | The commands of a swap, in order |
| `RoleSwap.StepsAreCommands` | internal/failover/failover.go:306-333 | The six steps are this one list of commands |
| `RoleSwap.BackupReadsBack` | internal/failover/failover.go:317-326 | For every host and user free of NUL the pg_basebackup command line tokenizes to the intended argument vector, given word by word; otherwise it does not tokenize |
| `Failover.Controller.constructor` | internal/failover/failover.go:43-66 | The quorum is the configured one, at least one; the health URLs are the primary's and the configured ones; auto-failover is on only if configured |
| `Failover.Controller.FindSecondary` | internal/failover/failover.go:481-488 | The first secondary of that name |
| `Failover.Controller.VerifyPrimaryDown` | internal/failover/failover.go:389-405 | Force or a recorded outage settles it without a poll; otherwise the poll passes if at least the quorum of URLs did not answer 200, and is remembered; the flag is set only by a poll |
| `Failover.Controller.Perform` | internal/failover/failover.go:263-282 | One promotion step, tied to its functional form |
| `Failover.Controller.PromoteSite` | internal/failover/failover.go:222-252 | The loop over the steps, dry run included |
| `Failover.Controller.Promote` | internal/failover/failover.go:216-253 | Promotion by name; its frame lets no host but the named secondary's change |
| `Failover.Controller.Record` | internal/failover/failover.go:97-106 | The counter and the flag stay what the history of polls of all health URLs amounts to |
| `Failover.UnreachableQuorum` | internal/failover/failover.go:43-66 | A controller whose quorum exceeds its own health URLs holds the primary to be up after any calls |
| `Failover.Controller.Check` | internal/failover/failover.go:97-128 | A round with one answer for each health URL attempts a promotion exactly if it declares the primary down, auto_failover is set and a site is named by promote_secondary or is the only one; that site is promoted, and no other host changes |
| `Failover.Controller.PromoteDeclared` | internal/failover/failover.go:107-117 | A promotion by the loop adds nothing to the history |
| `Failover.Controller.AdoptAsSecondary` | internal/failover/failover.go:286-348 | The role swap on the old primary's host: nothing is sent where failover is disabled or the new primary is unknown or left out with several; else the commands of a swap from the site meant are sent |
| `Failover.Controller.RunSwap` | internal/failover/failover.go:335-344 | The loop over the role-swap steps |
| `Failover.PromoteNamed` | internal/failover/failover.go:216-253 | Promotion by name, by its inputs: not found exactly if no secondary has the name; success exactly under the conditions of PromotedIff on the controller's own settings, for the first site of that name; no other host changes |
| `Failover.HandOver` | internal/failover/failover.go:216-348 | Promotion by name, then the role swap on another host: if both succeed, the host of the first site of that name is a primary with registry and Sidekiq writable, its storages open unless that update failed silently; the other one is a standby of that site with registry and Sidekiq suppressed, its storages cleared if that update worked; no further host changed |
| `Sampling.Shuffle` | internal/reconciler/consistency/reconciler.go:212-222 | The in-place partial Fisher-Yates loop equals the recursive shuffle |
| `Sampling.SampleGitFsck` | internal/reconciler/consistency/reconciler.go:182-232 | Returns the number of places of the sample whose repository fails; nothing happens for a zero share or no repositories |
| `Sampling.SampleSizeIs` | internal/reconciler/consistency/reconciler.go:196-202 | The sample is the share rounded down, at least one repository and at most all |
| `Sampling.ShufflePermutes` | internal/reconciler/consistency/reconciler.go:212-222 | The array stays a permutation of the repositories |
| `Sampling.SampleIsArrangement` | internal/reconciler/consistency/reconciler.go:212-222 | Distinct repositories give a sample of distinct members |
| `Sampling.DrawOfSample` | internal/reconciler/consistency/reconciler.go:212-222 | The draws can be recovered from the sample: no arrangement arises twice |
| `Sampling.SampleOfDrawOf` | internal/reconciler/consistency/reconciler.go:212-222 | Every ordered arrangement arises; with the previous row, draws and arrangements are in bijection |
| `Sampling.CountDraws` | internal/reconciler/consistency/reconciler.go:212-222 | There are m(m-1)...(m-n+1) draws of length n |
| `Sampling.EqualInclusion` | internal/reconciler/consistency/reconciler.go:204-222 | Over all draws, each repository is in exactly n out of m samples |
| `FetchPool.ListProjects` | internal/reconciler/gitfetch/reconciler.go:169-212 | The projects listed are those of the rows with a usable path, with their ids and in their order, and every other row has none; a query error, a row that cannot be scanned or an error behind the rows makes the listing fail |
| `FetchPool.ListedContained` | internal/reconciler/gitfetch/reconciler.go:169-260 | Whatever the rows hold, each listed project's path lands below a named root at that very path |
| `FetchPool.ListedDistinctIff` | internal/reconciler/gitfetch/reconciler.go:169-242 | No two listed projects share a path if and only if no two usable rows name one repository |
| `FetchPool.NextKeeps` | internal/reconciler/gitfetch/reconciler.go:99-151 | The pool's invariant is kept by every step of every schedule, cancellation included |
| `FetchPool.AtMostLimit` | internal/reconciler/gitfetch/reconciler.go:99-112 | Never more fetches at once than the limit in force |
| `FetchPool.ParallelBound` | internal/reconciler/gitfetch/reconciler.go:99-112 | The limit that a sweep sets up: never more fetches at once than listed projects, than maxParallel, or than one where maxParallel is below one |
| `FetchPool.ParallelReached` | internal/reconciler/gitfetch/reconciler.go:99-112 | And some undisturbed run has that many |
| `FetchPool.StepsDown` | internal/reconciler/gitfetch/reconciler.go:99-151 | Every step lowers a measure |
| `FetchPool.RunsAreShort` | internal/reconciler/gitfetch/reconciler.go:99-151 | No schedule has more than 4n + 4 steps |
| `FetchPool.Progress` | internal/reconciler/gitfetch/reconciler.go:99-151 | A sweep that has not returned can always go on |
| `FetchPool.ReturnedCounts` | internal/reconciler/gitfetch/reconciler.go:113-151 | Repaired plus remaining equals the number launched, each counted once; OK means every launched fetch succeeded |
| `FetchPool.UndisturbedResult` | internal/reconciler/gitfetch/reconciler.go:99-151 | Without cancellation every listed project is fetched exactly once and the result is the one the fetches determine |
| `FetchPool.ScheduleIndependent` | internal/reconciler/gitfetch/reconciler.go:99-151 | Any two undisturbed schedules give the same result |
| `FetchPool.CutShortIff` | internal/reconciler/gitfetch/reconciler.go:99-127 | Projects stay unlaunched in exactly the runs in which the loop met a cancelled context with projects left |
| `FetchPool.AllFetchedIff` | internal/reconciler/gitfetch/reconciler.go:113-151 | All projects were fetched if and only if the sweep says OK and was not cut short; it says OK without that exactly if it was cut short and all it had started succeeded |
| `FetchPool.OkMeansAllFetchedIff` | internal/reconciler/gitfetch/reconciler.go:86-152 | OK means in every sweep that all projects were fetched if and only if the context cannot be cancelled or there is nothing to fetch |
| `FetchPool.CancelledSweepReportsOk` | internal/reconciler/gitfetch/reconciler.go:113-117 | For every project list there is a cancelled sweep that reports OK having fetched nothing |
| `FetchPool.FetchAll` | internal/reconciler/gitfetch/reconciler.go:99-152 | The launching loop under an arbitrary scheduler terminates with consistent counts, having run under the limit that maxParallel and the number of projects give; undisturbed it counts as repaired the projects whose fetch succeeds |
| `FetchPool.Reconcile` | internal/reconciler/gitfetch/reconciler.go:86-152 | A listing that fails ends the sweep before any fetch, not OK with one remaining; an empty one is OK; any other is fetched with consistent counts |
| `ProjectPath.ValidateIff` | internal/projectpath/projectpath.go:16-51 | The chain of tests accepts exactly the slash-joined routes of the grammar |
| `ProjectPath.RoutesAccepted` | internal/projectpath/projectpath.go:16-51 | Each route is accepted as its joined text, and split back into its segments |
| `ProjectPath.ErrorIs` | internal/projectpath/projectpath.go:25-48 | Which of the refusals a path meets |
| `Splitting.JoinSplit` | internal/projectpath/projectpath.go:38-45 | Joining undoes splitting, and no part holds the separator |
| `Splitting.SplitJoin` | internal/projectpath/projectpath.go:38-45 | Splitting undoes joining |
| `GitPaths.RenderedCleans` | internal/reconciler/gitfetch/reconciler.go:253-260 | A cleaned path is a fixed point of cleaning |
| `GitPaths.CleaningKeepsMeaning` | internal/reconciler/gitfetch/reconciler.go:253-260 | A cleaned path names what the path itself names, from every working directory |
| `GitPaths.ContainedJoinExact` | internal/reconciler/gitfetch/reconciler.go:253-260 | For every root with a named last element and every relative path, the string-prefix test passes if and only if following the path from the root stays at or below it from every working directory, and the result names the place it leads to |
| `GitPaths.WithinElements` | internal/reconciler/gitfetch/reconciler.go:253-260 | Below means that the root's elements are a prefix |
| `GitPaths.ContainmentIff` | internal/reconciler/gitfetch/reconciler.go:253-260 | The test is exact for all relative paths if and only if the root has a named last element; it is not for "/", "." or a climb |
| `GitPaths.RouteContained` | internal/reconciler/gitfetch/reconciler.go:230-260 | Every accepted route lands at root/route.git |
| `GitPaths.DiskPathContained` | internal/reconciler/gitfetch/reconciler.go:230-260 | So does every hashed path |
| `GitPaths.DiskPathIs` | internal/reconciler/gitfetch/reconciler.go:230-251 | A hashed project lies at @hashed, two pairs of the digest and the digest; a legacy one at its route, both with .git; a legacy project without a route, or with text that is none, has no path |
| `GitPaths.DiskPathsDistinct` | internal/reconciler/gitfetch/reconciler.go:230-269 | Hashed and legacy paths never coincide; different routes or digests give different paths |
| `EnvExpansion.UnparseTokens` | internal/config/config.go:307-313 | The scan for references loses no character |
| `EnvExpansion.TokensSplit` | internal/config/config.go:307-313 | A reference is recognised wherever it stands |
| `EnvExpansion.ExpandAround` | internal/config/config.go:466-485 | Expansion puts a variable's value in verbatim, once: what the value holds is never scanned again; missing names are reported in order |
| `EnvExpansion.NoReferences` | internal/config/config.go:466-485 | Text that mentions no variable is left alone |
| `EnvExpansion.RefOnlyIff` | internal/config/config.go:310-313 | A value counts as a single reference exactly if it is one |
| `EnvExpansion.ExpandFailsIff` | internal/config/config.go:466-485 | It fails if and only if some referenced variable is unset or empty |
| `EnvExpansion.MissingIff` | internal/config/config.go:466-485 | The names it reports are exactly those variables |
| `EnvExpansion.RefOnlyExpands` | internal/config/config.go:310-313 | A value that is one reference expands to exactly that variable |
| `EnvExpansion.ExpandEnvString` | internal/config/config.go:466-485 | The method computes that expansion |
| `EnvExpansion.ReplaceAll` | internal/config/config.go:467-478 | The replacing scan and its list of missing names |
| `ConfigLoad.WalkSecretFields` | internal/config/config.go:367-392 | The walk appends exactly the complaints about the tree's secret leaves, in order |
| `ConfigLoad.CheckSecretField` | internal/config/config.go:394-400 | A leaf is reported unless it is empty or one reference |
| `ConfigLoad.CellsAreFields` | internal/config/config.go:432-464 | The expansion walk passes exactly the string fields that routes through the tree lead to, once each, in walk order |
| `ConfigLoad.WalksMeet` | internal/config/config.go:367-464 | Along those routes the secret walk passes exactly the fields tagged as required |
| `ConfigLoad.Reported` | internal/config/config.go:340-400 | The paths reported are those of the secret fields that routes lead to and that hold neither nothing nor a single reference, once each, in walk order |
| `ConfigLoad.CheckSecretsAreEnvRefs` | internal/config/config.go:361-365 | The audit returns that report and changes nothing |
| `ConfigLoad.ResolveEnv` | internal/config/config.go:432-464 | The in-place expansion equals expanding the fields in order up to the first failure |
| `ConfigLoad.ResolveEnvInStruct` | internal/config/config.go:428-430 | Every string field that a route leads to ends with the expansion of its own text, or the names are those that the first such field in walk order lacks |
| `ConfigLoad.ExpandCellsMeaning` | internal/config/config.go:432-464 | Over a tree without sharing, every leaf holds its own expansion, or some leaf names an unset variable |
| `ConfigLoad.ReportsFirstUnset` | internal/config/config.go:432-464 | The names reported are those of the first leaf, in walk order, that does not expand |
| `ConfigLoad.SecretsFromEnvironment` | internal/config/config.go:282-305 | Check and expansion together: each secret field is empty or holds one environment variable's non-empty value verbatim |
| `ConfigLoad.Load` | internal/config/config.go:282-305 | Loading rejects a config exactly if some route leads to a literal secret and no override is given, with the report of their paths and before anything is expanded; otherwise every string field that a route leads to ends expanded, or it reports the variables that the first such field lacks; without the override every secret comes from the environment |
| `ConnInfo.BuildPairs` | internal/config/config.go:799-819 | The settings of a DSN in order |
| `ConnInfo.WritePairs` | internal/config/config.go:820-828 | The builder loop |
| `ConnInfo.DsnFrom` | internal/config/config.go:798-834 | The whole connection string |
| `ConnInfo.DsnRoundTrip` | internal/config/config.go:798-860 | libpq's grammar reads back exactly the pairs written, in order, and those of the extra text |
| `ConnInfo.DsnRoundTripIff` | internal/config/config.go:848-860 | It does if and only if every value is free of NUL and either quoted or free of whitespace: the quoter looks for the space only |
| `ConnInfo.DsnMeans` | internal/config/config.go:798-841 | For each keyword libpq uses the value of that setting: host, port, user, password if there is one, database, SSL mode with require as its default, and the certificate files that are set; there is no other keyword |
| `ConnInfo.ReplicationDsnReads` | internal/config/config.go:776-780 | The replication DSN reads back with its application name |
| `ConnInfo.ParseSplitPair` | internal/config/config.go:852-860 | A value printed bare with whitespace in it is never read back |
| `Redaction.NonInterference` | internal/pgsetup/pgsetup.go:62-71 | In any printed text, all passwords that are quoted or free of whitespace give the same redacted text if and only if the scan of the text before the field does not end inside a quoted value |
| `PasswordScan.RedactLeavesRest` | internal/pgsetup/pgsetup.go:62-71 | Text without "password=" is printed as it is |
| `PasswordScan.RedactMasks` | internal/pgsetup/pgsetup.go:62-71 | Behind such text a password that is quoted or free of whitespace is printed as three stars, and what follows it is redacted on its own |
| `Redaction.RedactionHidesPassword` | internal/pgsetup/pgsetup.go:62-71 | Where the scan stays aligned with the quoting, the redacted DSN does not depend on the password if and only if the password is quoted or free of whitespace |
| `Redaction.RedactionNonInterference` | internal/pgsetup/pgsetup.go:62-71 | All such passwords give the same redacted text if and only if host and user keep the scan aligned |
| `Redaction.ArgumentsAre` | internal/pgsetup/pgsetup.go:54-60 | The arguments of pg_basebackup, word by word |
| `Redaction.CommandLineNonInterference` | internal/pgsetup/pgsetup.go:54-90 | The same for the pg_basebackup command line a dry run prints, for every data directory and slot: what counts is host and user, and whether the scan of the directory ends inside a quoted value |
| `Redaction.PlainDirectory` | internal/pgsetup/pgsetup.go:54-90 | A directory without "password=" leaves the condition that of the DSN alone |
| `Redaction.NoKeyAligned` | internal/pgsetup/pgsetup.go:62-71 | Host and user are aligned if neither contains "password=" |
| `Redaction.MisalignedLeaks` | internal/pgsetup/pgsetup.go:62-71 | Otherwise two passwords are told apart by the redacted text, for every other setting |
| `PgSetup.AppendConnInfoAppname` | internal/pgsetup/pgsetup.go:134-165 | The edit of postgresql.auto.conf |
| `PgSetup.UpdateFirst` | internal/pgsetup/pgsetup.go:146-158 | The loop over the lines |
| `PgSetup.RewriteIdempotent` | internal/pgsetup/pgsetup.go:134-165 | For every file and name a second run changes nothing, and the file ends in a line break |
| `PgSetup.EditedFile` | internal/pgsetup/pgsetup.go:134-176 | The whole file after the edit: the first primary_conninfo line gets the setting in place of its last quote unless it names an application, a line is added where there is none, and no other line changes |
| `PgSetup.EffectiveLine` | internal/pgsetup/pgsetup.go:145-164 | For every file and every name without a line break: the first primary_conninfo line gets the name, or one is added; the last one, which PostgreSQL takes, names an application if and only if there were fewer than two or it named one before |
| `PgSetup.InjectedReads` | internal/pgsetup/pgsetup.go:170-176 | For every line: a readable setting gets the application name appended to its value, an unreadable one stays unreadable |
| `PgSetup.EditKeepsSettings` | internal/pgsetup/pgsetup.go:170-176 | For every line whose value, the one read before the edit, is a connection string, libpq reads all its settings, in order, and the application name after them, if and only if the string does not end in an open value |
| `PgSetup.EmptyValueTakesName` | internal/pgsetup/pgsetup.go:170-176 | A setting left without a value at the end takes the application name for one |
| `PgSetup.ConnTextOf` | internal/pgsetup/pgsetup.go:134-165 | Every value is readable from the line that pg_basebackup writes for it |
| `PgSetup.UnquotedLineBreaks` | internal/pgsetup/pgsetup.go:167-176 | On a line without quotes the result has no readable value |
| `SshExec.ParseIff` | internal/sshexec/sshexec.go:49-135 | A text is accepted as an endpoint if and only if the endpoint is well formed and the text, white space around it aside, is one of its spellings: with or without user and port, bare or in brackets, a bare address with several colons without port only |
| `SshExec.RefusedFirst` | internal/sshexec/sshexec.go:49-66 | For every text: it is refused for its characters exactly if one of space, tab, line feed, carriage return, slash and NUL stands inside it, and for its user exactly if its only @ is its first character |
| `SshExec.Alphabets` | internal/sshexec/sshexec.go:38-45 | Hosts are written in letters, digits and ._:%-, users in the same without colon and percent sign |
| `SshExec.CheckHostIff` | internal/sshexec/sshexec.go:264-270 | Commands may be sent to exactly the spellings of endpoints |
| `SshExec.PortIff` | internal/sshexec/sshexec.go:126-135 | Ports are the numbers from 1 to 65535 in decimal digits, with or without a plus sign |
| `SshExec.PortRange` | internal/sshexec/sshexec.go:126-135 | Of the integers as they are printed, exactly those from 1 to 65535 are ports |
| `SshExec.ParseIsEndpoint` | internal/sshexec/sshexec.go:49-135 | Whatever is accepted is well formed: nothing reads as an option, a path or a space |
| `SshExec.AuthorityRoundTrip` | internal/sshexec/sshexec.go:49-160 | The authority of a rendered URL parses back to the same user, host and port, brackets and the port's spelling included |
| `SshExec.ParseIdempotent` | internal/sshexec/sshexec.go:49-92 | Parsing is a projection |
| `SshExec.UrlSplits` | internal/sshexec/sshexec.go:148-160 | The URL splits into that authority and the path, with one slash in front if it had none |
| `SshExec.UrlInjective` | internal/sshexec/sshexec.go:148-160 | Endpoint and path, up to one leading slash, are recoverable from the URL |
| `SshExec.StandardReaderAgrees` | internal/sshexec/sshexec.go:126-160 | A reader by the authority and host grammar of section 3.2 of RFC 3986 recovers the endpoint if the host is an IP literal where it is bracketed and a registered name elsewhere, and the port has no plus sign; it rejects every other authority |
| `SshExec.StandardHosts` | internal/sshexec/sshexec.go:41-43 | Accepted hosts without colon and percent sign are of that form, hosts with both never are |
| `UriHost.AddressesRecognised` | internal/sshexec/sshexec.go:139-160 | The host grammar takes for an IPv6 address exactly the texts of eight 16-bit pieces, or of up to seven around a double colon, the last two of which may be an IPv4 address |
| `SshExec.DestinationReadsBack` | internal/sshexec/sshexec.go:139-144 | The ssh destination parses back to the endpoint without its port if and only if the host does not hold exactly one colon |
| `RegistryAuth.SplitParams` | internal/reconciler/registry/auth.go:128-148 | The quote-aware splitting loop |
| `RegistryAuth.SplitRestores` | internal/reconciler/registry/auth.go:128-148 | Joining the parts restores the input up to one final unquoted comma; no part holds an unquoted comma |
| `RegistryAuth.SplitOfJoin` | internal/reconciler/registry/auth.go:128-148 | Splitting undoes joining parts |
| `RegistryAuth.ParseChallenge` | internal/reconciler/registry/auth.go:100-125 | The challenge parser |
| `RegistryAuth.ChallengeRoundTrip` | internal/reconciler/registry/auth.go:100-148 | Printed parameters, in any order, with others interleaved, optional white space and commas inside values, are read back to the same triple |
| `RegistryAuth.OtherSchemes` | internal/reconciler/registry/auth.go:100-125 | Nothing is read of a header of another scheme, and only challenges with a realm are accepted |
| `RegistryAuth.FieldsRecoveredIff` | internal/reconciler/registry/auth.go:100-148 | A challenge with any of realm, service and scope in any order, printed as quoted strings of section 5.6.4 of RFC 9110, is accepted and read as it says if and only if no value holds a quote or a backslash and the realm is not empty |
| `ShellQuote.RoundTrip` | internal/shellquote/shellquote.go:16-39 | A command line of quoted words tokenizes by sections 2.2.1, 2.2.2 and 2.3 of the POSIX.1-2017 Shell Command Language to exactly those words; a NUL is the only obstacle |
| `ShellQuote.ReadQuoted` | internal/shellquote/shellquote.go:22-30 | A quoted value reads as that value wherever a word starts |
| `ShellQuote.BareIff` | internal/shellquote/shellquote.go:12-30 | A value is left bare exactly if it is not empty and all its characters mean the same quoted and bare |

## Left out

- HTTP, TLS, JSON and token comparison: a request is what the handler learns about it.
- The delivery's event type: it is only logged and passed on.
- ssh, rsync, git and Postgres: the outcome of a command or a fetch is an oracle, its effect on a host a small record.
- The two reads of db_key_base: the comparison yields match, mismatch or unknown.
- Host key and connection options of ssh calls: of an address only whether CheckHost accepts it matters.
- Concurrent use of the failover controller's fields: one loop updates them, and a manual promotion runs in a process of its own.
- The ticker, timeouts and shutdown of the loops: rounds come in any number.
- The failover command's own choice of the first secondary when no name is given.
- SHA-256: a digest is any string of 64 lower-case hexadecimal digits; distinct ids are not claimed to have distinct digests.
- Sampling.SampleSize: computes with a real share where the code uses float64, so sizes next to a rounding boundary may differ by one; everything else holds for every size.
- The directory walk before sampling, and git fsck itself: the repositories and which of them fail are inputs.
- The row-count and API comparisons of the consistency sweep, isApproxEqual among them: arithmetic on two counts.
- The text of errors: a failed listing is told apart from a successful one, not from another failed one.
- resolveProject and FetchProject: one query and one fetch outside the pool.
- The map case of resolveEnv: it writes to reflected map values; trees here have strings, pointers, lists and structs.
- ConfigLoad.Load: takes the parsed tree; reading, YAML decoding, defaults and validation of the configuration are not modelled, and a string field belongs to one place of the tree.
- ConnInfo.DsnFrom: strings are sequences of characters, so encodings that split a character are not modelled.
- Zone identifiers of IPv6 literals: RFC 3986 has none, so its reader rejects them (`SshExec.StandardHosts`); RFC 6874, which adds them, is not modelled.
- RegistryAuth.ChallengeRoundTrip: parameter names are compared as the code compares them, case included; the token cache and the token request are not modelled.
- RegistryAuth.ParseChallenge: a header is read from its scheme on; choosing among several challenges is not modelled.
- PgSetup.InjectedReads: a value is read by the quoting that pg_basebackup writes, with quotes and backslashes doubled; a value with other backslash escapes counts as unreadable.
- PgSetup.EditKeepsSettings: is about names without white space, quotes and backslashes, as replication slot names are; pg_basebackup has created the slot by the time the file is edited.
- The other file operations of the standby setup.
- rsync, S3 and registry comparisons, retry, metrics, logging, the runbook, the doctor and the wizard: they call other programs and services in sequence or format text for people, and hold no state between calls.
