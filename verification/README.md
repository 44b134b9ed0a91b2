# Verified model of the control plane's concurrent and algorithmic cores

A Dafny model of the parts of this Kubernetes control plane whose correctness is an
argument over whole runs, whole documents or whole calendars, with proofs of what those
parts are for. `dafny verify dfyconfig.toml` checks everything.

Code that changes state in the repository (the informer, the timing wheel, the work queue,
the CPU manager, the line patches, the flag merge) is a class or a looping method here, proved
against a specification function; the laws are lemmas about those functions and about the
state machines built from them.

| files | models |
|---|---|
| `SharedInformer`, `SharedInformerObjects`, `StartupAdmission` | one writer, a bounded lossy broadcast, any number of subscribers; admission of first lists |
| `LeaderElection`, `LeaseHistory`, `LeaderLease` | N replicas compare-and-swapping one lease in real time, with requests that land late |
| `TimingWheel` | the hashed timing wheel against a map from key to due tick |
| `OpenApiRefs` | `$ref` expansion over possibly cyclic schemas |
| `Calendar`, `CronField`, `CronSchedule` | cron expressions, their bounded search, and the Gregorian calendar they are measured by |
| `CpuManager`, `Cpuset` | exclusive CPU claims and the cpuset printer |
| `WorkQueue` | the deduplicating queue and its wake-ups |
| `InstallFlags` | the merge of saved and current installation flags |
| `ContainerdLines`, `ContainerdHugetlb`, `ContainerdCni`, `ContainerdRoots` | the two line-by-line patches of containerd's configuration, on classified lines |
| `ContainerdReading`, `ContainerdText`, `ContainerdConfig`, `ContainerdMeaning` | the same patches on the text of the file: what they write is read again, and what it says |
| `MemberReplacement` | datastore member replacement under crashes and late requests |
| `DerEncoding` | the DER wrapping of an RSA key |
| `Ordering`, `Text`, `Wrappers` | ascending numbers, decimal text, splitting and joining, optional values |

## Findings

Where the code does less than its documentation or its own checks suggest, the model follows
the code and the exact condition is proved.

- `ElectionConfig::validate` does not give mutual exclusion. The exact condition is that the
  renew deadline, two retry periods and the longest attempt, with the lateness of their timers,
  fit in the whole seconds of the lease; some lateness is harmless exactly when they leave a
  rest of it, for any retry period down to none. The defaults 15 s / 10 s / 2 s pass `validate`
  and miss it by one second even with exact timers. `acquire` has no timeout, so as the code
  stands every configuration that passes has a run in which two replicas work at once
  (`LeaderElection.ExclusiveExactlyWhen`, `LeaderElection.SomeLatenessIsSafeExactlyWhen`,
  `LeaderElection.DefaultsAreNotExclusive`, `LeaderElection.NoConfigurationIsExclusive`).
- A cron step is added in 32 bits, without overflow checks in a release build. `5/4294967295`
  as a day of month is accepted and also yields day 0. An item means what it says exactly when
  its first value plus its step does not overflow (`CronField.CollectIsSpanExactlyWhen`).
- `next_after` documents `None` for a schedule that can never fire. `None` is right, from every
  instant, exactly when the weekday is restricted, or a date of common years is allowed, or
  29 February is not. `0 0 29 2 *` is a text for which it is wrong
  (`CronSchedule.NoneIsRightExactlyWhen`, `CronSchedule.LeapDayScheduleStops`).
- Expansion leaves a live reference behind exactly when some schema is itself the bare text of
  a reference (`OpenApiRefs.ExpansionSettlesExactlyWhen`).
- The restart under sudo loses a role that follows `--remove-control-plane`
  (`InstallFlags.RestartSavesTheSameExactlyWhen`).
- The hugetlb patch can define a table a second time, which is not valid TOML. Take any spellings
  of one table's header. The patch repeats a table that the file did not repeat exactly when the
  file has one header of it, and either its first CRI table is nested in a root that spells the
  table, or it has no CRI table the patch knows and the header then added spells it. So a CNI
  table before its root repeats the root, in the same or the other quotes, and so does a root
  whose header carries a comment (`ContainerdRoots.RepeatsTableExactlyWhen`,
  `ContainerdRoots.NestedFirstRepeatsItsRoot`, `ContainerdRoots.CommentedRootIsRepeated`).
- The CNI patch reports a change, on which containerd is restarted, of a file whose lines are all
  set up, exactly when the file ends with a line feed or has one after a carriage return
  (`ContainerdConfig.ConfigureReportsExactlyWhen`, `ContainerdConfig.AFinalLineFeedIsReported`).
- Replacing a member by one that already votes leaves one vote fewer
  (`MemberReplacement.VotesAreKeptExactlyWhen`).
- The work queue never forgets work, but two wake-ups can become one, and then a consumer waits
  beside pending work until another finishes. No run does this exactly when there is at most one
  consumer (`WorkQueue.NobodyIdlesExactlyWhen`, `WorkQueue.WakeupsCoalesce`).

## Assumptions

- The upstream watcher emits `(Init InitApply* (InitDone (Apply | Delete)*)?)*`; the grammar
  theorem assumes it, the coherence theorems do not. Iteration order of a hash map is any order.
- Leader election: one common clock and distinct non-empty identities. Two parameters are not in
  the program: a bound on the first `acquire` attempt, and how late a timer can be. The exact
  condition needs a retry period or some lateness, since without either the clock of the model
  would stand still while a replica leads; `LeaderElection.AtMostOneWorks` does not.
- A CRI root table is a line with exactly one of the four headers the patch knows, up to white
  space around it. A header with a comment after it is none: a `disable_hugetlb_controller = true`
  under it stays (`ContainerdRoots.CommentedRootIsRepeated`).
- tokio: a broadcast channel is a log of which a receiver can read the last `capacity` events,
  a watch channel is a value with a version, and `Notify` is a set of waiters and one permit.
- Flags reach the merge only if the argument parser accepts them, which rules out
  `--worker=x` and `--control-plane=x`. CNI table headers are nested in CRI root tables
  (proved of the text in `ContainerdReading.CniTablesAreNested`).

## Model

| member | source | states |
|---|---|---|
| SharedInformer.NothingIsLost | crates/nodecontroller/src/watch.rs:223-262 | in every reachable state, what a subscriber has delivered, then its unreplayed snapshot, then what its receiver is still to read, fold to exactly the shared map |
| SharedInformer.BlockedMeansCurrent | crates/nodecontroller/src/watch.rs:305-347 | a subscriber that cannot take a turn either equals the store or waits for a relist that is still in progress: the end of a list is never a lost wake-up |
| SharedInformer.ViewsNeverRewind | crates/nodecontroller/src/watch.rs:234-261 | along every run the log position a consumer's map stands for never decreases, across lags, relists and new snapshots, and a live consumer's map is the store at that position |
| SharedInformer.StreamsAreSessions | crates/nodecontroller/src/watch.rs:308-345 | every delivered stream is a sequence of exact snapshots, each followed by the log from that very position, so no older event follows a newer snapshot |
| SharedInformer.StreamsConform | crates/nodecontroller/src/watch.rs:308-345 | given a well-formed upstream stream, every delivered stream is a prefix of the same grammar |
| SharedInformer.RestartConforms | crates/nodecontroller/src/watch.rs:145-213 | two streams of the grammar joined where the informer restarts are one stream of the grammar |
| SharedInformer.SnapshotRebuilds | crates/nodecontroller/src/watch.rs:318-337 | replaying a snapshot in any order of its objects rebuilds the map it was taken from |
| SharedInformer.StoreIsLastWord | crates/nodecontroller/src/watch.rs:234-254 | in every reachable state an object is in the shared map if and only if the last event about it, or about all objects, put it there: a deleted object is gone, and so is one that a new list did not mention |
| SharedInformer.MapIsLastWord | crates/nodecontroller/src/watch.rs:234-252 | so is every consumer's map, of the events delivered to it |
| SharedInformer.LogIsUpstream | crates/nodecontroller/src/watch.rs:223-254 | what is broadcast is what came from upstream, in order, and the store is ready exactly while a list has completed and none has begun since |
| SharedInformer.KeyIsIdentity | crates/nodecontroller/src/watch.rs:219-221 | two objects have the same key exactly if their namespaces and names agree |
| SharedInformer.RunIsOk | crates/nodecontroller/src/watch.rs:223-347 | the invariant behind these laws holds in every state of every run |
| SharedInformer.CatchesUp | crates/nodecontroller/src/watch.rs:305-347 | from any state it can be in, lagged or not, a subscriber left alone with a ready store becomes current within a bounded number of turns |
| SharedInformerObjects.PushKeepsRing | crates/nodecontroller/src/watch.rs:137-137 | the bounded channel holds exactly the last events of the log, up to its capacity |
| SharedInformerObjects.Values | crates/nodecontroller/src/watch.rs:261-261 | a snapshot lists each object of the map once, in some order |
| SharedInformerObjects.SharedWatch.constructor | crates/nodecontroller/src/watch.rs:135-143 | a new informer is empty and not ready |
| SharedInformerObjects.SharedWatch.ApplyUpstream | crates/nodecontroller/src/watch.rs:223-254 | an event is one step of map, ready flag and broadcast: an apply puts its object, a delete removes it, and both leave every other key alone; the start of a list empties the map, its end sets the flag |
| SharedInformerObjects.SharedWatch.SnapshotAndSubscribe | crates/nodecontroller/src/watch.rs:256-262 | a snapshot is the map at the very position the new receiver starts from, and none is given before the list is complete |
| SharedInformerObjects.SharedWatch.Receive | crates/nodecontroller/src/watch.rs:338-344 | a receiver gets the next event of the log, or learns that it was overwritten |
| SharedInformerObjects.SharedSubscription.constructor | crates/nodecontroller/src/watch.rs:264-272 | a new subscription needs a snapshot and has seen the current ready version |
| SharedInformerObjects.SharedSubscription.CheckReady | crates/nodecontroller/src/watch.rs:308-317 | taking a snapshot, or waiting for the next change of the ready flag, is the state machine's turn |
| SharedInformerObjects.SharedSubscription.Replay | crates/nodecontroller/src/watch.rs:318-337 | replaying the snapshot, item by item, is the state machine's turn |
| SharedInformerObjects.SharedSubscription.Follow | crates/nodecontroller/src/watch.rs:338-344 | following the channel, or falling back after a lag, is the state machine's turn |
| SharedInformerObjects.SharedSubscription.TakeTurn | crates/nodecontroller/src/watch.rs:306-346 | one turn of the loop refines one turn of the state machine |
| SharedInformerObjects.SharedSubscription.TurnAfter | crates/nodecontroller/src/watch.rs:305-347 | a turn after any upstream events have landed delivers one event or none, never rewinds the consumer, and waits only if the consumer is current or a list is in progress |
| SharedInformerObjects.SharedSubscription.NextEvent | crates/nodecontroller/src/watch.rs:305-347 | with any upstream events landing before each turn of the loop, it delivers exactly one event, or still waits after everything has landed and has then missed nothing |
| StartupAdmission.SlotsAreConserved | crates/nodecontroller/src/watch.rs:145-213 | over every run free and held startup slots add up to the limit, whatever lists complete, stall or fail |
| StartupAdmission.AdmissionIsBounded | crates/nodecontroller/src/watch.rs:56-71 | never more first lists in flight than the limit; a task that cannot start is held up by exactly that many, each with its stall deadline armed; an initialized task never holds a slot again |
| StartupAdmission.StallsExactlyWhileListing | crates/nodecontroller/src/watch.rs:158-190 | a stream can stall from its start, and from a relist, to the end of the list, and never while it watches |
| StartupAdmission.HappensExactlyWhen | crates/nodecontroller/src/watch.rs:145-212 | when a task can start, receive, stall, fail and retry, and the phase that leaves it in |
| StartupAdmission.FailuresAreCounted | crates/nodecontroller/src/watch.rs:145-212 | the failures since the last completed list, up to the largest 32-bit number |
| StartupAdmission.SlotsMove | crates/nodecontroller/src/watch.rs:148-209 | a slot is taken for a first list only and given back when that list or its stream ends, and the task is initialized by the end of that list |
| StartupAdmission.InformerTask.Start | crates/nodecontroller/src/watch.rs:148-157 | starting a list takes a slot exactly if this is the first one, and fails only for want of one |
| StartupAdmission.InformerTask.Receive | crates/nodecontroller/src/watch.rs:191-205 | the end of the first list gives the slot back, and only that |
| StartupAdmission.InformerTask.EndStream | crates/nodecontroller/src/watch.rs:206-212 | a stream that ends, fails or stalls gives back a slot it still holds |
| LeaderElection.WorkIsTimely | crates/node-leaderelection/src/lib.rs:289-322 | in every run, a working replica's last acknowledged renew time is less than deadline + two retry periods + the longest attempt ago, with the lateness of their timers |
| LeaderElection.WorkerHoldsTheLease | crates/node-leaderelection/src/lib.rs:352-362 | if that reach fits in the lease, whoever works is the recorded holder |
| LeaderElection.AtMostOneWorks | crates/node-leaderelection/src/lib.rs:325-363 | if that reach fits in the lease, no two replicas ever work at the same instant |
| LeaderElection.ExclusiveExactlyWhen | crates/node-leaderelection/src/lib.rs:78-105 | for a configuration that passes validation, exclusion holds of every run if and only if the reach, with timers as late as they can be, fits in the whole seconds of the lease |
| LeaderElection.SomeLatenessIsSafeExactlyWhen | crates/node-leaderelection/src/lib.rs:288-322 | for every retry period, none included, some positive lateness of the timers keeps exclusion if and only if renew deadline, two retry periods and the longest attempt are less than the whole seconds of the lease |
| LeaderElection.TwoCanWork | crates/node-leaderelection/src/lib.rs:288-322 | otherwise a run with two replicas at work is constructed, step by step |
| LeaderElection.SlowFirstAttempt | crates/node-leaderelection/src/lib.rs:257-286 | a first attempt that outlasts the lease lets two replicas work at once |
| LeaderElection.NoConfigurationIsExclusive | crates/node-leaderelection/src/lib.rs:257-286 | for every configuration that passes validation, any two or more identities and any lateness of the timers, some duration of the first attempt lets two replicas work at once |
| LeaderElection.WithoutRetryPeriodTwoCanWork | crates/node-leaderelection/src/lib.rs:288-322 | without a retry period, a 14 s deadline and a 2 s first attempt break exclusion under a 15 s lease, however little the timers are late |
| LeaderElection.DefaultsAreNotExclusive | crates/nodecontroller/src/config.rs:26-28 | the default timings are such a configuration, even with exact timers |
| LeaderElection.RunKeepsInv | crates/node-leaderelection/src/lib.rs:158-231 | the invariant over replicas, requests in flight and the record holds in every state of every run |
| LeaderElection.ValidMeans | crates/node-leaderelection/src/lib.rs:83-105 | a configuration passes exactly with retry period, renew deadline and lease in ascending order, or with the election off |
| LeaderElection.TakesExactlyWhen | crates/node-leaderelection/src/lib.rs:111-134 | a lease is taken exactly if there is none, it is free, it is one's own, or its renew time is unknown or more than the lease ago |
| LeaderElection.LeaseSecondsAreWhole | crates/node-leaderelection/src/lib.rs:130-131 | takeover measures the lease in whole seconds, cut off |
| LeaderElection.LeadershipEndsExactlyWhen | crates/node-leaderelection/src/lib.rs:289-322 | a leader stops exactly at an answer that the lease is another's, or when a failed attempt ends with the renew deadline elapsed |
| LeaderElection.LeadershipBeginsExactlyWhen | crates/node-leaderelection/src/lib.rs:258-286 | leadership begins exactly with an answer that the lease is one's own |
| LeaderElection.GivenUpRequestsCanLand | crates/node-leaderelection/src/lib.rs:297-310 | a write whose attempt is given up on stays on its way and can land at any later time |
| LeaseHistory.LeaseTellsTheTruth | crates/node-leaderelection/src/lib.rs:169-229 | over every run and every late write: transitions count the writes that changed the holder, creation as one; renew times never decrease; acquire time is constant within a term |
| LeaseHistory.RunKeepsLineage | crates/node-leaderelection/src/lib.rs:194-228 | every record ever written follows from the one it replaced |
| LeaseHistory.TransitionsCountChanges | crates/node-leaderelection/src/lib.rs:194-198 | from any first record on, the count grows by exactly the changes of holder |
| LeaseHistory.RenewTimesAscend | crates/node-leaderelection/src/lib.rs:217-228 | no write moves the renew time back |
| LeaseHistory.TermKeepsAcquireTime | crates/node-leaderelection/src/lib.rs:200-207 | a renewal keeps the acquire time of its term |
| LeaderLease.LeaderLease.TryAcquire | crates/node-leaderelection/src/lib.rs:160-231 | with any other writes landing in between and any failure of the network: `Won` exactly when the record was written and the answer came back, `Lost` exactly when it was not entitled or came too late, and the record is its own exactly when its write was carried out on what it had read |
| LeaderLease.LeaderLease.RenewUntilLost | crates/node-leaderelection/src/lib.rs:289-322 | the renewal loop goes on only if no attempt was answered that the lease is another's, and stops at the end of the first attempt that ends leadership |
| LeaderLease.StopsExactlyWhen | crates/node-leaderelection/src/lib.rs:289-322 | told from the attempts alone: the loop stops with the first that finds the lease another's or leaves the renew deadline elapsed since the last win, and with no other |
| LeaderLease.GivesUpInTheWindow | crates/node-leaderelection/src/lib.rs:289-322 | leadership is given up no earlier than the deadline after the last success and within two retry periods of it and the lateness of two timers; never while attempts succeed |
| LeaderLease.LandAllVersions | crates/node-leaderelection/src/lib.rs:217-228 | a write by anyone else changes the version, so a stale write is refused |
| TimingWheel.AdvanceFiresExactlyTheDue | crates/nodecontroller/src/wheel.rs:135-154 | an advance returns exactly the keys due by the target, once each, in tick order, and keeps exactly the others |
| TimingWheel.AdvanceComposes | crates/nodecontroller/src/wheel.rs:135-154 | advancing to a and then to b gives the output and the state of advancing to b |
| TimingWheel.NothingFiresEarly | crates/nodecontroller/src/wheel.rs:86-154 | over any sequence of inserts, cancels and advances no key fires before its deadline |
| TimingWheel.NothingOverdueIsLeft | crates/nodecontroller/src/wheel.rs:135-154 | after an advance no live key's tick has begun, and one scheduled ahead of the cursor is less than one tick overdue |
| TimingWheel.DueTickIsTight | crates/nodecontroller/src/wheel.rs:86-91 | the due tick begins at or after the deadline and, ahead of the cursor, less than one tick after it |
| TimingWheel.DueTickIsFirst | crates/nodecontroller/src/wheel.rs:73-91 | a deadline is due at the first tick after the cursor that does not begin before it; one that has passed, at the very next tick |
| TimingWheel.OverdueFiresNext | crates/nodecontroller/src/wheel.rs:73-91 | a key whose deadline has passed is accepted and fires with the next advance that moves the cursor |
| TimingWheel.DueHasBegun | crates/nodecontroller/src/wheel.rs:140-154 | an advance to an instant fires exactly the keys whose tick has begun by then |
| TimingWheel.HorizonIsExact | crates/nodecontroller/src/wheel.rs:98-104 | an insert is rejected exactly when the deadline is more than a revolution past the cursor |
| TimingWheel.SlotHoldsOneTick | crates/nodecontroller/src/wheel.rs:106-106 | residues are injective on the window of one revolution |
| TimingWheel.InsertKeepsScheduled | crates/nodecontroller/src/wheel.rs:97-110 | inserting keeps every key in one slot, due within one revolution; a rejected insert changes nothing |
| TimingWheel.CancelKeepsScheduled | crates/nodecontroller/src/wheel.rs:113-121 | cancelling removes exactly the key |
| TimingWheel.InsertRepresents | crates/nodecontroller/src/wheel.rs:97-110 | the slots and the reverse index after an insert represent the map after it |
| TimingWheel.CancelRepresents | crates/nodecontroller/src/wheel.rs:113-121 | the same for a cancel |
| TimingWheel.SweepRepresents | crates/nodecontroller/src/wheel.rs:144-152 | draining the cursor's slot removes exactly the keys due at its tick |
| TimingWheel.Wheel.constructor | crates/nodecontroller/src/wheel.rs:60-71 | a new wheel is empty, its cursor at tick 0 |
| TimingWheel.Wheel.InsertKey | crates/nodecontroller/src/wheel.rs:97-110 | fails exactly past one revolution; else the key is due at the first tick not before its deadline, and no other key is touched |
| TimingWheel.Wheel.CancelKey | crates/nodecontroller/src/wheel.rs:113-121 | refines a removal, and reports whether the key was live |
| TimingWheel.Wheel.AdvanceTo | crates/nodecontroller/src/wheel.rs:140-154 | returns exactly the keys whose tick has begun, refines the advance of the map, and keeps all others |
| OpenApiRefs.ExpansionIsInlining | crates/nodeapiserver/src/codegen.rs:226-274 | a document inlines to a finite value if and only if its expansion makes no cut, and then the expansion is that value |
| OpenApiRefs.UncutIsInlined | crates/nodeapiserver/src/codegen.rs:226-274 | an uncut expansion is the inlining at every sufficient depth, under any active set |
| OpenApiRefs.InlinedIsUncut | crates/nodeapiserver/src/codegen.rs:244-261 | what inlines is never cut |
| OpenApiRefs.InlineIsStable | crates/nodeapiserver/src/codegen.rs:226-274 | the inlining does not depend on the depth allowed |
| OpenApiRefs.CutIsACycle | crates/nodeapiserver/src/codegen.rs:260-260 | the placeholder appears only where a reference closes a cycle of schemas |
| OpenApiRefs.AcyclicExpansionIsInlining | crates/nodeapiserver/src/codegen.rs:226-274 | without reference cycles, expansion is inlining |
| OpenApiRefs.ExpansionSettlesExactlyWhen | crates/nodeapiserver/src/codegen.rs:238-262 | expansion leaves no reference to an existing schema in any document if and only if no schema is the bare text of a reference |
| OpenApiRefs.ExpansionIsIdempotent | crates/nodeapiserver/src/codegen.rs:226-274 | expanding twice is expanding once |
| OpenApiRefs.SettledIsFixed | crates/nodeapiserver/src/codegen.rs:263-272 | a value without references is left as it is |
| OpenApiRefs.ExpandOpenApiRefs | crates/nodeapiserver/src/codegen.rs:226-274 | the recursion with its mutable active set ends for every schema set, returns the set unchanged, and computes the expansion |
| OpenApiRefs.ExpandReference | crates/nodeapiserver/src/codegen.rs:244-261 | the reference branch, with siblings overriding the target's fields |
| OpenApiRefs.ReferenceExpands | crates/nodeapiserver/src/codegen.rs:238-261 | the object `{"$ref": "#/components/schemas/<name>"}` is what that schema expands to, and within itself `{"type": "object"}` |
| OpenApiRefs.SiblingsWin | crates/nodeapiserver/src/codegen.rs:244-258 | fields beside a reference are expanded and win over the fields of what it refers to |
| OpenApiRefs.OthersExpandInPlace | crates/nodeapiserver/src/codegen.rs:232-236 | any other object is expanded field by field, an array item by item, and the rest is left alone |
| CronField.CollectIsSpanExactlyWhen | crates/nodecontroller/src/cron_schedule.rs:75-79 | a list item collects exactly the values it denotes if and only if its first value plus its step stays within 32 bits |
| CronField.CollectIsSpan | crates/nodecontroller/src/cron_schedule.rs:75-79 | without an overflow, a value is collected exactly when a whole number of steps leads to it |
| CronField.FieldIsUnion | crates/nodecontroller/src/cron_schedule.rs:36-84 | a parsed field is the strictly ascending list of what its items collect |
| CronField.FieldFailsExactlyWhen | crates/nodecontroller/src/cron_schedule.rs:41-74 | a field fails exactly when one of its items does |
| CronField.ItemRoundTrip | crates/nodecontroller/src/cron_schedule.rs:42-74 | an item with its numbers spelled in any accepted way parses to what it means, or to the out-of-range error exactly when it leaves the bounds or runs backwards |
| CronField.ReadItem | crates/nodecontroller/src/cron_schedule.rs:42-74 | every text without a malformed number is the spelling of an item |
| CronField.ParsesExactlyU32 | crates/nodecontroller/src/cron_schedule.rs:48-70 | a number is accepted exactly up to 4294967295, with or without a plus sign |
| CronField.ErrorsAre | crates/nodecontroller/src/cron_schedule.rs:42-50 | the step is looked at before the range, the range before the bounds |
| CronField.RangeErrorsAre | crates/nodecontroller/src/cron_schedule.rs:53-70 | which number of a range is in error, and what a lone one is |
| CronField.CollectIsYield | crates/nodecontroller/src/cron_schedule.rs:75-79 | what an item collects whatever its step, overflowing ones included |
| CronField.FieldAcceptedExactlyWhen | crates/nodecontroller/src/cron_schedule.rs:72-74 | a written field is accepted exactly when every item is within bounds |
| CronField.FieldRoundTrip | crates/nodecontroller/src/cron_schedule.rs:36-84 | parsing a written field gives exactly the values its items yield, in strictly ascending order, unrestricted exactly for a lone star |
| CronField.ReadField | crates/nodecontroller/src/cron_schedule.rs:36-84 | every accepted text is a written field |
| CronField.SortDedupIsSet | crates/nodecontroller/src/cron_schedule.rs:81-82 | sorting and deduplicating keeps the values and makes them strictly ascending |
| CronField.WrappingStepCollectsDownwards | crates/nodecontroller/src/cron_schedule.rs:78-78 | the text `5/4294967295`, accepted as a day of month, yields day 0 |
| CronField.RunCollect | crates/nodecontroller/src/cron_schedule.rs:75-79 | the stepping loop ends, wrapping or not, and pushes the collected values |
| CronField.RunParseField | crates/nodecontroller/src/cron_schedule.rs:36-84 | the parser's loops compute the parsed field or the first error |
| Calendar.DaysBeforeYearClosed | crates/nodecontroller/src/cron_schedule.rs:119-139 | the calendar's year count has the Gregorian closed form |
| Calendar.DateOfDay | crates/nodecontroller/src/cron_schedule.rs:119-139 | every day is a valid date that says which day it is |
| Calendar.DayOfDate | crates/nodecontroller/src/cron_schedule.rs:119-139 | no two dates are the same day |
| Calendar.WeekdaysAreAnchored | crates/nodecontroller/src/cron_schedule.rs:126-127 | weekdays count from Sunday, anchored at a known Thursday |
| Calendar.WeekdayAdvances | crates/nodecontroller/src/cron_schedule.rs:127-128 | each day has the weekday after the one before |
| Calendar.DatesAdvance | crates/nodecontroller/src/cron_schedule.rs:119-128 | the days are the dates in order, each the next of its month or the first of the next month |
| Calendar.MonthLengths | crates/nodecontroller/src/cron_schedule.rs:119-128 | the lengths of the twelve months, and of a leap February |
| CronSchedule.ParsedIsSchedule | crates/nodecontroller/src/cron_schedule.rs:87-117 | every parsed schedule has a value within bounds in each field, so the final emptiness check never fails a parse |
| CronSchedule.ParsesExactlyWhen | crates/nodecontroller/src/cron_schedule.rs:87-117 | a text parses exactly if it has five words that parse as minute, hour, day of month, month and day of week |
| CronSchedule.MatchesWhatIsMeant | crates/nodecontroller/src/cron_schedule.rs:87-139 | every text of an expression, with any white space, parses to a schedule that matches exactly the minutes it means, with the day-of-month or day-of-week rule |
| CronSchedule.MatchesTheClock | crates/nodecontroller/src/cron_schedule.rs:118-139 | a schedule matches a minute of a date exactly if minute, hour and month are listed, and the day of the month or of the week that is restricted, either if both are |
| CronSchedule.FieldsAreWords | crates/nodecontroller/src/cron_schedule.rs:87-97 | every expression has such a text: its fields joined by spaces |
| Text.SpacesAre | crates/nodecontroller/src/cron_schedule.rs:88-88 | the twenty-five characters of Unicode white space |
| CronSchedule.ParsedIsMeant | crates/nodecontroller/src/cron_schedule.rs:87-117 | every text that parses is the text of an expression |
| CronSchedule.RunNextAfter | crates/nodecontroller/src/cron_schedule.rs:146-167 | the search returns the least matching minute after `from`, or nothing if none of the next 527040 minutes (366 days) matches |
| CronSchedule.RunsSkipNothing | crates/nodecontroller/src/cron_schedule.rs:141-167 | searching again from each run visits every matching minute it passes and no other |
| CronSchedule.GivesUpExactlyWhen | crates/nodecontroller/src/cron_schedule.rs:141-167 | the search returns nothing from some instant if and only if the weekday is unrestricted and no date of a common year is allowed |
| CronSchedule.AlwaysFinds | crates/nodecontroller/src/cron_schedule.rs:158-166 | otherwise it finds a run from every instant |
| CronSchedule.CommonDateRecurs | crates/nodecontroller/src/cron_schedule.rs:158-158 | every 366 days hold each common-year date at each time of day |
| CronSchedule.WeekdayRecurs | crates/nodecontroller/src/cron_schedule.rs:158-158 | every 366 days hold each weekday in each month |
| CronSchedule.OnlyLeapDays | crates/nodecontroller/src/cron_schedule.rs:119-139 | a schedule the search gives up on can only match on a leap day |
| CronSchedule.NoneIsRightExactlyWhen | crates/nodecontroller/src/cron_schedule.rs:141-167 | `None` means that the schedule never fires again if and only if the weekday is restricted, a common-year date is allowed, or 29 February is not |
| CronSchedule.LeapDayComes | crates/nodecontroller/src/cron_schedule.rs:119-139 | a schedule that allows the leap day fires again after every instant |
| CronSchedule.LeapDayScheduleStops | crates/nodecontroller/src/cron_schedule.rs:146-167 | `0 0 29 2 *` parses and fires again after every instant, yet the search gives up on it from some instants |
| CpuManager.RunKeepsClaims | crates/nodelet/src/cpu_manager.rs:139-174 | over any run of allocations and releases, claims are unreserved and pairwise disjoint |
| CpuManager.ClaimsPartition | crates/nodelet/src/cpu_manager.rs:98-109 | every processor of the node is in exactly one of the reserved set, the shared pool and one claim |
| CpuManager.PickIsWithin | crates/nodelet/src/cpu_manager.rs:142-159 | exactly `count` free processors are picked, unless fewer are free |
| CpuManager.PickPrefersMost | crates/nodelet/src/cpu_manager.rs:144-153 | no other choice of as many free processors has more preferred ones |
| CpuManager.PickIsLowest | crates/nodelet/src/cpu_manager.rs:120-131 | without a preference the lowest free processors are picked |
| CpuManager.PickIsLowestOfItsKind | crates/nodelet/src/cpu_manager.rs:144-153 | among the preferred processors, and among the others, the lowest are picked |
| CpuManager.LowestIsLowest | crates/nodelet/src/cpu_manager.rs:120-131 | nothing left out is below anything picked |
| CpuManager.FillIsTopUp | crates/nodelet/src/cpu_manager.rs:148-153 | the filling loop adds the lowest processors not yet picked |
| CpuManager.FillUp | crates/nodelet/src/cpu_manager.rs:148-153 | the loop over the free processors computes that |
| CpuManager.AllocateMovesProcessors | crates/nodelet/src/cpu_manager.rs:139-159 | an allocation takes its processors from the shared pool, returns those its key held, and moves nothing else |
| CpuManager.ReleaseUndoesAllocate | crates/nodelet/src/cpu_manager.rs:165-167 | releasing undoes an allocation |
| CpuManager.SandboxReleaseIsExact | crates/nodelet/src/cpu_manager.rs:169-174 | releasing a sandbox drops the claims of its own containers and of those whose identifiers continue past a slash, and no others, whatever the identifiers hold |
| CpuManager.SandboxesAreApartExactlyWhen | crates/nodelet/src/cpu_manager.rs:169-174 | releasing one sandbox leaves every container of another alone if and only if neither identifier continues the other past a slash |
| CpuManager.SlashFreeSandboxesAreApart | crates/nodelet/src/cpu_manager.rs:169-174 | identifiers without a slash never do |
| CpuManager.ReservedCpuCount | crates/nodelet/src/cpu_manager.rs:56-58 | the reservation is the least number of whole processors that covers it |
| CpuManager.Manager.constructor | crates/nodelet/src/cpu_manager.rs:91-96 | a new manager has no claims and reserves the lowest processors |
| CpuManager.Manager.SharedPool | crates/nodelet/src/cpu_manager.rs:105-109 | the pool is what is neither reserved nor claimed |
| CpuManager.Manager.AllocatePreferring | crates/nodelet/src/cpu_manager.rs:139-159 | fails exactly when fewer than `count` processors are free, and then changes nothing |
| CpuManager.Manager.Release | crates/nodelet/src/cpu_manager.rs:165-167 | removes the claim of the key |
| CpuManager.Manager.ReleaseSandbox | crates/nodelet/src/cpu_manager.rs:171-174 | removes the claims under the sandbox |
| Cpuset.CpusetRoundTrip | crates/nodelet/src/cpu_manager.rs:60-79 | reading a printed set in the cpuset(7) list format gives back its members, and the ranges printed are its maximal runs |
| Cpuset.RunsAreMaximal | crates/nodelet/src/cpu_manager.rs:67-71 | no two printed ranges could be joined |
| Cpuset.MaximalIsUnique | crates/nodelet/src/cpu_manager.rs:60-63 | there is only one such list of ranges for a set |
| Cpuset.ExpandOfRuns | crates/nodelet/src/cpu_manager.rs:67-71 | the printed ranges stand for exactly the members |
| Cpuset.FollowRun | crates/nodelet/src/cpu_manager.rs:68-71 | the inner loop stops at the end of the run |
| Cpuset.FormatCpuset | crates/nodelet/src/cpu_manager.rs:64-79 | the loops print the runs in ascending order |
| WorkQueue.WorkIsNeverForgotten | crates/nodecontroller/src/workqueue.rs:44-81 | whatever the interleaving of producers and consumers, work is never pending while every consumer waits |
| WorkQueue.RunKeepsWakeups | crates/nodecontroller/src/workqueue.rs:44-81 | pending work always has a stored permit or a consumer that will look, and a permit is stored only while nobody waits |
| WorkQueue.RunIsFaithful | crates/nodecontroller/src/workqueue.rs:44-81 | what was accepted is what was taken, in order, followed by what is pending; the set is the duplicate-free set of pending keys |
| WorkQueue.RunTakesTurns | crates/nodecontroller/src/workqueue.rs:19-22 | a key is accepted and taken in turns, so events during a pass schedule exactly one follow-up |
| WorkQueue.PopsAreSeparated | crates/nodecontroller/src/workqueue.rs:19-22 | between two pops of a key it was accepted again |
| WorkQueue.RunsFromStart | crates/nodecontroller/src/workqueue.rs:28-38 | both laws hold of every run of a new queue |
| WorkQueue.NobodyIdlesExactlyWhen | crates/nodecontroller/src/workqueue.rs:44-81 | in every run no consumer waits beside pending work, if and only if there is at most one consumer |
| WorkQueue.WakeupsCoalesce | crates/nodecontroller/src/workqueue.rs:48-79 | for any two of the consumers, a run after which one waits beside pending work while the other is busy |
| WorkQueue.KeyedWorkQueue.constructor | crates/nodecontroller/src/workqueue.rs:28-38 | a new queue is empty, without a permit |
| WorkQueue.KeyedWorkQueue.Enqueue | crates/nodecontroller/src/workqueue.rs:44-50 | appends a key that is not queued and notifies once, else changes nothing |
| WorkQueue.KeyedWorkQueue.TryPop | crates/nodecontroller/src/workqueue.rs:68-78 | takes the oldest key out of both the list and the set |
| WorkQueue.KeyedWorkQueue.Wait | crates/nodecontroller/src/workqueue.rs:79-79 | takes the stored permit or starts waiting |
| InstallFlags.SavedAfterIsClean | crates/nodebootstrap/src/lib.rs:230-262 | after any sequence of invocations, no saved flag would be removed by a later saved one |
| InstallFlags.CleanMeans | crates/nodebootstrap/src/lib.rs:326-356 | that means distinct keys, at most one role, and no tag before a source choice, and nothing less |
| InstallFlags.PersistsExactlyWhen | crates/nodebootstrap/src/lib.rs:288-301 | the very texts that are never saved, and that every other flag is |
| InstallFlags.KeyIsChoice | crates/nodebootstrap/src/lib.rs:303-320 | what each flag sets, told from its text: source, tag, network, runtime, or what it names |
| InstallFlags.RolesAre | crates/nodebootstrap/src/lib.rs:322-324 | the two roles and their removal, by their texts |
| Text.StartsWithMeans | crates/nodebootstrap/src/lib.rs:291-291 | a text starts with another exactly if it is that and something more |
| InstallFlags.SavedIsLastRoleOnly | crates/nodebootstrap/src/lib.rs:326-333 | any saved list is read back as its kept flags in order, without the roles a later one replaces |
| InstallFlags.SavedIsSame | crates/nodebootstrap/src/lib.rs:328-333 | such flags are read back unchanged |
| InstallFlags.MergeSplits | crates/nodebootstrap/src/lib.rs:334-354 | merging keeps what survives of the saved flags and adds what the new ones make alone |
| InstallFlags.MergedAre | crates/nodebootstrap/src/lib.rs:326-356 | what a merge saves: the flags from before that no current one replaces, and the current ones that no later one replaces |
| InstallFlags.MergesCompose | crates/nodebootstrap/src/lib.rs:326-356 | two invocations save what one with both their arguments would |
| InstallFlags.MergeIsIdempotent | crates/nodebootstrap/src/lib.rs:326-356 | merging the same arguments again changes nothing |
| InstallFlags.RestartSaves | crates/nodebootstrap/src/lib.rs:256-260 | a restart under sudo saves the merged flags, without their role if the arguments hold a removal |
| InstallFlags.ControlsAre | crates/nodebootstrap/src/lib.rs:358-367 | the one-shot arguments are acted on in their order, and are exactly those never saved |
| InstallFlags.RestartSavesTheSameExactlyWhen | crates/nodebootstrap/src/lib.rs:256-260 | it saves the same flags if and only if there is no removal or no role flag follows the last one |
| InstallFlags.RestartActsTheSameExactlyWhen | crates/nodebootstrap/src/lib.rs:358-367 | under the same condition it acts on the same arguments |
| InstallFlags.RestartLosesTheRole | crates/nodebootstrap/src/lib.rs:335-341 | `--remove-control-plane --worker` saves the role at once and nothing after the restart |
| InstallFlags.ClassifyFits | crates/nodebootstrap/src/lib.rs:288-324 | the kinds of flags the laws speak of are those the tests on their text tell apart |
| InstallFlags.RetainIsKeep | crates/nodebootstrap/src/lib.rs:346-352 | retaining by the tests on the text keeps exactly the flags that survive |
| InstallFlags.ReadBackAll | crates/nodebootstrap/src/lib.rs:328-333 | the loop over the saved flags, on their text |
| InstallFlags.MergeIn | crates/nodebootstrap/src/lib.rs:334-354 | one turn of the loop over the current arguments, on their text |
| InstallFlags.MergeInstallationFlags | crates/nodebootstrap/src/lib.rs:326-356 | the two loops compute the merge |
| ContainerdHugetlb.HugetlbSecures | crates/nodebootstrap/src/containerd.rs:410-484 | the patch always leaves every CRI root table with an active setting and none that is true, and changes nothing exactly when that already holds |
| ContainerdHugetlb.HugetlbKeepsOthers | crates/nodebootstrap/src/containerd.rs:410-484 | no line is lost: all others stay, in order |
| ContainerdHugetlb.HugetlbIsIdempotent | crates/nodebootstrap/src/containerd.rs:410-484 | applied to the lines it gave, the patch changes nothing (on the text of the file: `ContainerdText.LimitIsIdempotent`) |
| ContainerdHugetlb.PassesMeans | crates/nodebootstrap/src/containerd.rs:417-465 | lines pass the loop unchanged exactly when each is in order where it stands |
| ContainerdRoots.HeadersAreCounted | crates/nodebootstrap/src/containerd.rs:410-484 | for any spellings of one table, the headers the patch leaves are those there were, one more if the first CRI table is nested in a root that spells it, and one more if there is no CRI table and the fallback does |
| ContainerdRoots.RepeatsTableExactlyWhen | crates/nodebootstrap/src/containerd.rs:431-480 | it repeats a table that was not repeated if and only if there was one header of it and one of those two cases holds |
| ContainerdRoots.NestedFirstRepeatsItsRoot | crates/nodebootstrap/src/containerd.rs:431-443 | inputs of the first case: a CNI table before its root, in either quotes |
| ContainerdRoots.CommentedRootIsRepeated | crates/nodebootstrap/src/containerd.rs:472-480 | an input of the second case: a root with a comment after its header, which also keeps its `true` |
| ContainerdRoots.GrpcTableIsHeaders | crates/nodebootstrap/src/containerd.rs:486-510 | the spellings these inputs are about, with comments and either quotes, are headers |
| ContainerdHugetlb.EnableHugetlbController | crates/nodebootstrap/src/containerd.rs:410-484 | the loop over the lines computes the patch and reports a change exactly when the lines differ |
| ContainerdHugetlb.PatchLine | crates/nodebootstrap/src/containerd.rs:417-465 | one turn of that loop |
| ContainerdCni.ConfigureSetsUp | crates/nodebootstrap/src/containerd.rs:301-373 | the patch always leaves a CNI table, every CNI table with both chosen directories and no other, and changes nothing exactly when that already holds |
| ContainerdCni.ConfigureKeepsOthers | crates/nodebootstrap/src/containerd.rs:301-373 | no line is lost: all but directories, CNI headers and blank lines stay, in order |
| ContainerdCni.ConfigureIsIdempotent | crates/nodebootstrap/src/containerd.rs:301-373 | applied to the lines it gave, with the same directories, the patch changes nothing (on the text: `ContainerdText.ConfigureIsIdempotentOnTexts`) |
| ContainerdCni.RewriteIsStable | crates/nodebootstrap/src/containerd.rs:328-349 | rewriting a rewritten line keeps it, indentation included |
| ContainerdCni.ConfigureKeepsLimits | crates/nodebootstrap/src/containerd.rs:249-275 | the CNI patch leaves nothing for the hugetlb patch to do |
| ContainerdCni.PatchIsIdempotent | crates/nodebootstrap/src/containerd.rs:249-275 | both patches applied to the lines they gave change nothing (on the text: `ContainerdText.PatchIsIdempotentOnTexts`) |
| ContainerdCni.ConfigureLines | crates/nodebootstrap/src/containerd.rs:301-373 | the loop over the lines computes the patch |
| ContainerdCni.PatchLine | crates/nodebootstrap/src/containerd.rs:306-352 | one turn of that loop |
| ContainerdReading.SettingsRead | crates/nodebootstrap/src/containerd.rs:453-463 | the settings the hugetlb patch writes are read back as inactive limits switched off |
| ContainerdReading.ConfLineRead | crates/nodebootstrap/src/containerd.rs:402-404 | the configuration line the CNI patch adds is read back as that directory |
| ContainerdReading.BinLineRead | crates/nodebootstrap/src/containerd.rs:405-407 | so is the binary directory's line |
| ContainerdReading.RewrittenLinesRead | crates/nodebootstrap/src/containerd.rs:344-348 | so are the lines it rewrites |
| ContainerdReading.RootHeaderRead | crates/nodebootstrap/src/containerd.rs:486-510 | the four root headers are read as root tables |
| ContainerdReading.CniHeaderRead | crates/nodebootstrap/src/containerd.rs:375-393 | the CNI headers are read as CNI tables of their root |
| ContainerdReading.CniTablesAreNested | crates/nodebootstrap/src/containerd.rs:375-383 | every CNI table is nested in a CRI root table |
| ContainerdReading.LimitIsRead | crates/nodebootstrap/src/containerd.rs:410-484 | if the lines were read from their text, so are those the hugetlb patch writes |
| ContainerdReading.ConfigureIsRead | crates/nodebootstrap/src/containerd.rs:301-373 | and those the CNI patch writes |
| ContainerdText.LimitReadsBack | crates/nodebootstrap/src/containerd.rs:410-484 | the texts the hugetlb patch writes are read again as the lines it meant |
| ContainerdText.ConfigureReadsBack | crates/nodebootstrap/src/containerd.rs:301-373 | so are those of the CNI patch |
| ContainerdText.LimitSecures | crates/nodebootstrap/src/containerd.rs:410-484 | read again, the patched text has its limits on in every root, and the patch changes exactly the texts that have not |
| ContainerdText.LimitIsIdempotent | crates/nodebootstrap/src/containerd.rs:410-484 | a second run, which reads what the first one wrote, changes nothing |
| ContainerdText.ConfigureSetsUpTexts | crates/nodebootstrap/src/containerd.rs:301-373 | read again, the patched text has both directories in every CNI table, and the patch changes exactly the texts that have not |
| ContainerdText.ConfigureIsIdempotentOnTexts | crates/nodebootstrap/src/containerd.rs:301-373 | a second run, which reads what the first one wrote, changes nothing |
| ContainerdText.PatchIsIdempotentOnTexts | crates/nodebootstrap/src/containerd.rs:249-275 | after one update with both patches, the next one reads the text and finds nothing to change in either |
| ContainerdMeaning.HeadersAreRead | crates/nodebootstrap/src/containerd.rs:375-393 | which texts are headers of the CRI tables, of tables nested in them, and of the CNI tables |
| ContainerdMeaning.KeysAreRead | crates/nodebootstrap/src/containerd.rs:453-463 | which lines set one of the three keys |
| ContainerdMeaning.ARootIsAdded | crates/nodebootstrap/src/containerd.rs:472-480 | a file without a CRI table gets these two lines at its end, by its schema version |
| ContainerdMeaning.TrueBecomesFalse | crates/nodebootstrap/src/containerd.rs:453-463 | an active setting that starts with `true` is replaced in a root table, and nowhere else |
| ContainerdMeaning.DirectoriesAreChosen | crates/nodebootstrap/src/containerd.rs:306-352 | in a CNI table of the patched text each directory has the value chosen for it |
| ContainerdMeaning.ACniTableIsAdded | crates/nodebootstrap/src/containerd.rs:361-368 | a file without a CNI table gets these lines at its end, by its schema version |
| ContainerdMeaning.ContainsMeans | crates/nodebootstrap/src/containerd.rs:385-388 | the search for the plugin's name finds it anywhere in a line |
| ContainerdConfig.RejoinsExactlyWhen | crates/nodebootstrap/src/containerd.rs:306-306 | joining the lines of a file gives it back exactly when cutting loses nothing |
| ContainerdConfig.LosesNothingMeans | crates/nodebootstrap/src/containerd.rs:306-306 | that is: the file does not end with a line feed, and none follows a carriage return |
| ContainerdConfig.RereadPasses | crates/nodebootstrap/src/containerd.rs:417-465 | what passes a patch as it was written passes it as it is cut from the joined file |
| ContainerdConfig.SecondLimitChangesNothing | crates/nodebootstrap/src/containerd.rs:410-484 | a second hugetlb patch of the written file changes no line |
| ContainerdConfig.SecondConfigureChangesNoLine | crates/nodebootstrap/src/containerd.rs:301-373 | nor does a second CNI patch with the same directories |
| ContainerdConfig.ConfigureReportsExactlyWhen | crates/nodebootstrap/src/containerd.rs:370-372 | the CNI patch reports a change if and only if the lines are not set up, or the file ends with a line feed or has one after a carriage return |
| ContainerdConfig.SecondConfigureReportsExactlyWhen | crates/nodebootstrap/src/containerd.rs:370-372 | so a second run reports the written file exactly when it ends so |
| ContainerdConfig.AFinalLineFeedIsReported | crates/nodebootstrap/src/containerd.rs:370-372 | every file it wrote, with a line feed at its end, is set up and reported all the same |
| ContainerdConfig.QuoteIsQuoted | crates/nodebootstrap/src/containerd.rs:298-299 | a path in JSON quotes starts and ends with a quote and stays on one line, whatever it holds |
| ContainerdConfig.UnquoteOfQuote | crates/nodebootstrap/src/containerd.rs:298-299 | reading the JSON string back gives the path |
| ContainerdConfig.EscapesAre | crates/nodebootstrap/src/containerd.rs:298-299 | which characters are escaped, and how |
| ContainerdConfig.EnableHugetlbController | crates/nodebootstrap/src/containerd.rs:410-484 | on the text of a file: it computes the patch and reports a change exactly when a root table lacked its limit |
| ContainerdConfig.ConfigureCniDirs | crates/nodebootstrap/src/containerd.rs:278-373 | on the text of a file: it fails exactly on one path without the other or on a relative one, and reports exactly a change of the text |
| MemberReplacement.ReplacementIsSafe | crates/nodebootstrap/src/cluster.rs:307-349 | through crashes, retries and late requests, the old member is present or the new one votes, and a learner's replacement never leaves a vote missing |
| MemberReplacement.VotesAreKeptExactlyWhen | crates/nodebootstrap/src/cluster.rs:307-349 | no run ever has fewer votes than at its start if and only if the new member starts as a learner |
| MemberReplacement.VoterReplacementLosesAVote | crates/nodebootstrap/src/cluster.rs:310-316 | a plain replacement by a voter ends with one vote fewer |
| MemberReplacement.LearnerReplacementCompletes | crates/nodebootstrap/src/cluster.rs:307-320 | undisturbed, replacing a member by a learner ends with the learner voting, the old member gone and as many votes |
| MemberReplacement.OthersAreUntouched | crates/nodebootstrap/src/cluster.rs:307-349 | no run touches any other member |
| MemberReplacement.RunsAreDisturbed | crates/nodebootstrap/src/cluster.rs:307-320 | a run has to reckon with a crash at any time, and with requests that take effect late, twice or never |
| MemberReplacement.RefusesToRemoveItself | crates/nodebootstrap/src/cluster.rs:359-368 | if the member that joined is the one to remove, or none joined, no run changes anything |
| MemberReplacement.RunKeepsInv | crates/nodebootstrap/src/cluster.rs:307-367 | the invariant behind these holds in every state of every run |
| DerEncoding.DecodeOfTlv | crates/nodebootstrap/src/pki.rs:564-578 | a definite-length decoder gives back the tag, the value and what follows |
| DerEncoding.TlvOfDecode | crates/nodebootstrap/src/pki.rs:564-578 | whatever such a decoder accepts, with lengths in shortest form, is what the encoder writes: one encoding for each element |
| DerEncoding.ShortestIsUnique | crates/nodebootstrap/src/pki.rs:570-574 | a length has one shortest form |
| DerEncoding.WrappedKeyReadsBack | crates/nodebootstrap/src/pki.rs:549-560 | the wrapping reads back as a version 0 RSA PrivateKeyInfo with the original key bytes |
| DerEncoding.EncodeTlv | crates/nodebootstrap/src/pki.rs:564-578 | the encoder pushes tag, length and value |
| DerEncoding.WrapRsaKey | crates/nodebootstrap/src/pki.rs:549-560 | the wrapper builds the PrivateKeyInfo |

## Left out

- Shared informer: object contents, trace logging, a closed channel, the merged and metadata watches and the backoff values; a stalled list, an error and the end of a stream are one step.
- Leader election: a disabled election, an operator deleting the lease, rounding of times to microseconds and the 32-bit limit of the transition count.
- Timing wheel: the 64-bit limits of tick numbers, and the size queries.
- OpenAPI: the lookup of the root schema by group, version and kind, and the depth of the native stack.
- Cron: years before 0 and the last date of the date library; a debug build panics where a release build wraps.
- CPU manager: QoS eligibility, the list of allocatable processors, and processor numbers near the 32-bit limit.
- Work queue: a consumer dropped while it waits; tokio hands its notification on.
- Installation flags: reading and writing the flags file, and everything the argument parser does but reject.
- Containerd: the snapshotter, CDI and disabled-plugin edits, running containerd, and tables defined by dotted or inline keys instead of a header.
- Member replacement: adding the new member, and membership changes by anyone else.
- DER: the PEM armour, and lengths of 2^64 bytes or more.
- Kubernetes clients, gRPC, TLS, certificates, process and service management, manifests, deployment scripts: foreign calls.
- Raft, the scheduler and most controllers are not part of this model.
