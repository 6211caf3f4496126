# Kerberator, modelled and proved

Kerberator keeps Kerberos ticket caches on the nodes of a Kubernetes cluster. An operator turns
Principal objects into a roster ConfigMap; a daemon on each node mints and prunes
`/tmp/krb5cc_<uid>` files from it; Events flow back and drive the Principals' status and the release
of their deletion finalizer. This project models the parts of that protocol with the most state,
branching or text handling, and proves what they promise: over every input, every run and every
interleaving.

To verify the project: `dafny verify dfyconfig.toml`.

| module | part of the system |
|---|---|
| `Common`, `Text`, `Sorting` | options, the Go string functions both sides use, sorting |
| `Keytab` | the MIT keytab version 2 reader |
| `Events`, `EventCache`, `Status` | Event ingestion, the observation cache, node statuses and the Ready condition |
| `Aggregate`, `AggregateTheorems`, `Tenant` | the principals of a Tenant, their keytabs, the roster built from them |
| `RosterFile`, `NodeFilter` | the roster text, node selectors from spec to daemon |
| `Daemon`, `PollLoop` | adoption, minting, pruning; change detection and the poll loop |
| `Finalizer`, `Purge`, `PurgeLinks`, `PurgeLimits` | purge confirmation, bounded release, the deletion protocol, its ties to the code and its limits |
| `Writers` | concurrent writers over a versioned API server |
| `Pending` | actions in flight in the terminal UI |

Code that updates variables or objects is modelled by methods and classes with loops, each proved
equal to a function of its inputs or of the old state; the theorems are about those functions, and
about runs of step relations built from them.

## Main results

* **Deletion is honest** (`Purge.ConfirmedReleaseIsSafe`). In every run of operator, kubelets, daemons and
  reconciler, a finalizer released by Event confirmation means that every pod has removed the ticket
  cache since the deletion, and that no node holds it at the release or at any later moment, until
  another principal gets the UID. The operator lists from a cache that may lag behind the deletion by
  any number of changes, and may fail to write what it listed; Events may get lost. Assumed of the
  environment:
  * no other UID's decimal form starts with this one's;
  * when the deletion happens the cluster is settled: among the rosters a pod may still act on (the one
    it is sweeping, the mounted one, later published ones, the one being built, and those the
    operator's cache has yet to give up) none brings the UID back after one that lacks it;
  * Events of this UID posted before the deletion are stamped before it;
  * the reconciler counts on no fewer pods than there are: DesiredNumberScheduled is at least their number;
  * prune Events in the namespace come from those pods only (Events of any other kind may come from anywhere);
  * the operator's cache and the mounted versions only advance, and a node label change made after
    the deletion does not overtake it on the way into the cache;
  * the pods stay the same, and nobody but the daemons writes the file.

  The first three are the exact condition (`PurgeLimits.EarlyReleaseIff`): from any state before the deletion
  in which every pod holds the file, an early release is possible if and only if one of them fails.
* **Which deletions Events can confirm** (`PurgeLimits.ConfirmableIff`): exactly those where every pod can still
  come to remove the file. A node selector that keeps the principal off one pod that never had the file is
  enough to make the deletion wait for its deadline, because `purgeConfirmed` counts all pods.
* **Aggregation is one declarative definition** (`Aggregate.Aggregate`), although the code finds file name
  collisions in the middle of a loop and starts over on fewer sources. Every verdict is characterised
  both ways, and the result does not depend on the order of the inputs.
* **The keytab reader has an inverse.** Reading a written file gives it back; whatever is accepted is the
  writing of what was read; truncation and the one panicking input family are characterised exactly.
* **Garbage collection is invisible** up to a staleness equal to the TTL, and that bound is the exact one.
* **Selectors keep their meaning** from the Principal spec through the ConfigMap to the daemon's decision.
* **A daemon removes only what is its own**, in every run and whatever other processes do.
* **No update is lost** between the status writers, in every interleaving of stale reads, conflicts and
  retries.

## Where code and comments differ

The model follows the code:

* A missing DaemonSet confirms a purge (principal_finalizer.go:441-444; the comment at line 348 says otherwise).
* `purgeConfirmed` looks for `uid=<N>` as a substring, which also matches longer UIDs (`Finalizer.TokenIff`).
* A 32-bit KVNO after the key is taken even when it is 0 (`Keytab.TailKvno`); the MIT "Keytab file
  format" document uses it only when it is not.
* A record length of 0x80000000 is its own int32 negation and makes `Parse` panic (`Keytab.PanicsIff`).
* A removal that fails drops the UID from the managed set all the same (watcher.go:442-448).
* `tenantConverged` reads the stability counter before the present refresh updates it, so that a Tenant
  which had been still clears at its first move (`Pending.ClearsOnFirstMove`).
* `writeKvnoStatus` may skip a write on the strength of a stale read (`Writers.StaleSkip`); it is right to
  skip exactly if no other KVNO was stored above the version it read (`Writers.SkipIsRightIff`).
* A file named with leading zeros, such as `krb5cc_007`, makes a daemon adopt UID 7 (`PurgeLinks.RestartAdopts`).

## Model

| member | source | states |
|---|---|---|
| `Text.AtoiFormat` | daemon/pkg/watcher/watcher.go:99-125 | a UID printed with `%d` is read back by `strconv.Atoi`, for every int64 |
| `Text.AtoiMeans` | daemon/pkg/watcher/watcher.go:99-125 | what is taken for a UID: an optional sign, digits only, and a value within 64 bits |
| `Keytab.Parse` | shared/keytab/parse.go:134-186 | the cursor loop returns exactly the live entries of the decoded file, or its error, or panics |
| `Keytab.ReadRecord` | shared/keytab/parse.go:148-183 | one round finds a marker, a truncation, the panic, a hole or an entry, and leaves the cursor at the end of that record |
| `Keytab.ParseEntry` | shared/keytab/parse.go:190-270 | reads an entry body exactly when it decodes, and keeps its principal, time, KVNO and enctype |
| `Keytab.ParseKeyPart` | shared/keytab/parse.go:218-270 | the fields after the components, from any cursor position |
| `Keytab.ReadComponents` | shared/keytab/parse.go:208-217 | the component loop reads as many counted strings as asked for, or reports truncation |
| `Keytab.ReadCountedString` | shared/keytab/parse.go:275-284 | succeeds exactly if the length and the bytes it announces are there, and returns those bytes |
| `Keytab.DecodeEncodedFile` | shared/keytab/parse.go:134-186 | round trip: every file of live and deleted records, with any padding, trailing KVNO, end marker and trailer, reads back as itself |
| `Keytab.CallerRoundTrip` | shared/keytab/parse.go:134-270 | what the caller gets for a written file: one entry for each live record, in order, whose principal, cut at '@' and '/', gives back realm and components, with the written time, key version and key type |
| `Keytab.EnctypeNamesMean` | shared/keytab/parse.go:295-328 | the fourteen named key types have the names of their numbers, and the others none of those |
| `Keytab.EnctypeNamesDiffer` | shared/keytab/parse.go:295-328 | no two key types are shown alike |
| `Keytab.EncodeDecodedFile` | shared/keytab/parse.go:134-186 | conversely, an accepted input is the encoding of what was read from it, so nothing else is accepted |
| `Keytab.PanicsIff` | shared/keytab/parse.go:155-171 | panics exactly on a header, complete records and then the length word 0x80000000 |
| `Keytab.PanicNeedsBytes` | shared/keytab/parse.go:155-171 | an input without the bytes 80 00 00 00 in a row never panics |
| `Keytab.PrefixOfFile` | shared/keytab/parse.go:148-186 | a prefix of an unterminated file reads as the records before the cut if that is a record boundary, and is truncated otherwise |
| `Keytab.EntriesBound` | shared/keytab/parse.go:134-186 | each entry accounts for at least 21 bytes of input, after the 2 of the header |
| `Keytab.TailKvno` | shared/keytab/parse.go:261-268 | four or more bytes after the key are the KVNO, zero included; fewer are ignored |
| `Keytab.MaxKvno` | shared/keytab/parse.go:63-71 | the largest KVNO among the entries, 0 without any |
| `Keytab.Enctypes` | shared/keytab/parse.go:75-86 | every enctype name of the entries once, in strictly ascending order, and no other |
| `EventCache.Cache.Put` | operator/internal/events/cache.go:100-115 | an observation replaces an entry that is not newer; one without pod or positive UID is dropped |
| `EventCache.Cache.Lookup` | operator/internal/events/cache.go:120-125 | finds an entry exactly if its key is there |
| `EventCache.Cache.EvictUid` | operator/internal/events/cache.go:130-138 | removes exactly the entries of a UID, deleting while iterating in any order |
| `EventCache.Cache.EvictPod` | operator/internal/events/cache.go:142-150 | removes exactly the entries of a pod |
| `EventCache.Cache.Gc` | operator/internal/events/cache.go:156-168 | removes exactly the entries older than the TTL and counts them |
| `EventCache.Ingest` | operator/internal/events/reconciler.go:87-143 | stores an Event about a pod, with a known reason and a UID, under its most informative time; drops the others |
| `Events.ObservedMeans` | operator/internal/events/reconciler.go:102-141 | which Events are observed, as which pod, UID, reason and message, and under the later of their clocks, or the creation time if both are unset |
| `Events.ParseUidMeans` | operator/internal/events/reasons.go:103-114 | a UID annotation decides alone, malformed or not; without one the message does |
| `EventCache.PutMeans` | operator/internal/events/cache.go:100-115 | after a Put the key holds the newer of the two observations, and nothing else has changed |
| `EventCache.RemovalsMean` | operator/internal/events/cache.go:130-168 | what eviction by UID, by pod and by age takes, and that it leaves the rest as it is |
| `EventCache.RunIsNewest` | operator/internal/events/cache.go:100-168 | after any operations a key holds the newest logged observation not removed since, ties to the later one, and is absent without one |
| `EventCache.EntriesMatchKeys` | operator/internal/events/cache.go:100-115 | every entry has a pod and a positive UID, and they are those of its key |
| `EventCache.PutsCommute` | operator/internal/events/cache.go:96-115 | Events with distinct times per key may arrive in any order |
| `EventCache.ReasonsKnown` | operator/internal/events/reconciler.go:102-141 | whatever is ingested, the cache holds known reasons only |
| `EventCache.GcLags` | operator/internal/events/cache.go:156-168 | the collected cache agrees with one never collected on everything from the cut-off on, even when old Events re-enter |
| `Status.ResolveStaleness` | operator/internal/controller/principal_status.go:34-46 | a positive threshold as given, else at least the minimum and at least twice the renewal interval |
| `Status.BuildNodeStatuses` | operator/internal/controller/principal_status.go:78-115 | node statuses sorted by name, enriched exactly where the node's pod has a fresh observation of the UID |
| `Status.NodeIsReported` | operator/internal/controller/principal_status.go:98-112 | each node is reported by the fresh observation of its pod, field by field, and by the pod's readiness otherwise |
| `Status.ReportIsSorted` | operator/internal/controller/principal_status.go:113-114 | one status for each node, in the order of their names |
| `Status.ShortReasonsMean` | shared/events/reasons.go:64-77 | the four short reasons; others pass through |
| `Status.GcIsInvisible` | operator/internal/controller/principal_status.go:78-125 | with staleness within the TTL no status ever differs from that of a cache which never collects |
| `Status.GcIsVisibleBeyondTtl` | operator/internal/controller/principal_status.go:117-125 | with any larger staleness some history shows the collection |
| `Status.PrincipalHealth` | operator/internal/controller/principal_finalizer.go:372-416 | desired is the DaemonSet's count or the number of matching Nodes, ready the number of those reporting a mint; a failed list is an error |
| `Status.ReadyAtMostDesired` | operator/internal/controller/principal_finalizer.go:372-416 | a restricted principal is never more ready than desired |
| `Status.ReadyIsHonest` | operator/internal/controller/principal_finalizer.go:653-699 | Ready=True means a fresh successful mint of this UID on every matching Node, and on as many nodes as desired |
| `Status.ReadyConditionMeans` | operator/internal/controller/principal_finalizer.go:653-699 | from flags and counts: when Ready is True, when Unknown, and which reason it has |
| `Status.ReadyIff` | operator/internal/controller/principal_finalizer.go:372-416 | a principal with a selector is Ready exactly if nothing is disabled, the selector matches a Node, and every one it matches has a fresh successful mint |
| `Status.UnrestrictedReady` | operator/internal/controller/principal_finalizer.go:372-416 | without a selector, fresh mints on all nodes, as many as the DaemonSet wants, make it Ready |
| `Status.DeriveReady` | operator/internal/controller/principal_finalizer.go:594-699 | from any ingested Events through the cache, the node statuses and the counts, Ready is True exactly for enough mints with nothing disabled, and then honest; on the fallback after a failed Node list the counts are the DaemonSet's |
| `Status.FallbackIsBlind` | operator/internal/controller/principal_finalizer.go:606-614 | that fallback makes every principal Ready once all pods are, whatever was minted |
| `Aggregate.Aggregate` | operator/internal/tenant/aggregate.go:183-315 | the recursive aggregation is the one-shot definition: roster, keytabs, selectors, verdicts and duplicate UIDs; with several sources for one principal, it is that of the sources left once nothing collides; the sources shrink at each collision |
| `Aggregate.RebuildAfterCollision` | operator/internal/tenant/aggregate.go:410-439 | aggregating without the colliding file's sources and relabelling those principals gives the result of the whole |
| `Aggregate.Judge` | operator/internal/tenant/aggregate.go:206-242 | the main loop gives each principal its verdict and accepts exactly the acceptable ones |
| `Aggregate.Print` | operator/internal/tenant/aggregate.go:262-282 | prints a consistent roster, or names a file that two principals bring with different bytes |
| `Aggregate.BuildSelectors` | operator/internal/tenant/aggregate.go:357-380 | one key per restricted principal |
| `Aggregate.OverlayIsDecision` | operator/internal/tenant/aggregate.go:386-439 | one collision removed and relabelled leaves every other decision as it was |
| `AggregateTheorems.IncludedIff` | operator/internal/tenant/aggregate.go:183-315 | included exactly if the UID is nobody else's, there is a keytab under a non-empty name, and no other such principal brings different bytes under it |
| `AggregateTheorems.RejectedIff` | operator/internal/tenant/aggregate.go:206-242 | each of the four rejection reasons, both ways |
| `AggregateTheorems.RosterAscends` | operator/internal/tenant/aggregate.go:244-278 | the roster is strictly ascending by UID |
| `AggregateTheorems.RosterMembers` | operator/internal/tenant/aggregate.go:244-278 | the roster has exactly the included principals |
| `AggregateTheorems.RosterOwnsKeytabs` | operator/internal/tenant/aggregate.go:262-278 | every line's file name maps to that principal's own bytes |
| `AggregateTheorems.RosterCarriesSource` | operator/internal/tenant/aggregate.go:221-241 | a roster entry carries its principal's own source, with its file name and bytes |
| `AggregateTheorems.VerdictsReport` | operator/internal/tenant/aggregate.go:206-242 | each verdict names its principal and UID, and has the roster line exactly if the principal is included |
| `AggregateTheorems.DuplicatesIff` | operator/internal/tenant/aggregate.go:191-204 | the duplicate UIDs are exactly those of two principals, ascending |
| `AggregateTheorems.PermutationInvariant` | operator/internal/tenant/aggregate.go:244-315 | permuting principals and sources changes neither blob, keytabs, selectors, duplicate UIDs nor any principal's verdict |
| `Tenant.ListPrincipalsFor` | operator/internal/controller/tenant_reconciler.go:312-334 | the Tenant's principals that are neither deleted nor disabled, none for a disabled Tenant, in order |
| `Tenant.ActiveMembers` | operator/internal/controller/tenant_reconciler.go:312-334 | listed are exactly the Tenant's own objects, neither under deletion nor disabled, unless it is disabled itself |
| `Tenant.OthersChangeNothing` | operator/internal/controller/tenant_reconciler.go:321-332 | an object of another Tenant, one under deletion and a disabled one change nothing, wherever they stand |
| `Tenant.ResolveKeytabs` | operator/internal/controller/tenant_reconciler.go:453-495 | a source for each principal whose reference resolves, and whether all did |
| `Tenant.SourcesDistinct` | operator/internal/controller/tenant_reconciler.go:453-495 | distinct object names give what the aggregator asks of its sources |
| `Tenant.ReconcileRoster` | operator/internal/controller/tenant_reconciler.go:147-160 | the aggregation of a Tenant is the one-shot definition over its active principals |
| `Tenant.RosterListsActive` | operator/internal/controller/tenant_reconciler.go:288-334 | every request a daemon reads back is for one of the Tenant's own objects, neither under deletion nor disabled, with its UID, principal and file name; UIDs ascend |
| `Tenant.ActiveIsListed` | operator/internal/controller/tenant_reconciler.go:453-495 | conversely, each of those whose Secret has the keytab, and that no other contests, has a request |
| `Tenant.KeytabsAreTheSecrets` | operator/internal/controller/tenant_reconciler.go:453-495 | the keytab Secret holds, under the name in the roster, the bytes of the Secret the object refers to |
| `Tenant.DeletedLeavesRoster` | operator/internal/controller/tenant_reconciler.go:293-306 | a principal under deletion, or disabled, is in no roster built since, unless another active one shares the UID |
| `Tenant.DisabledTenantIsEmpty` | operator/internal/controller/tenant_reconciler.go:308-315 | a disabled Tenant publishes an empty roster and only the placeholder keytab |
| `RosterFile.ParseRoster` | daemon/pkg/watcher/watcher.go:129-148 | the scan collects every line's request or error in order, and stops at an overlong line |
| `RosterFile.LineByLine` | daemon/pkg/watcher/watcher.go:129-148 | each line adds its request or error before those of the rest; an overlong one ends the scan |
| `RosterFile.LineBreaks` | daemon/pkg/watcher/watcher.go:129-148 | the last line needs no line break, and a carriage return before one is dropped |
| `RosterFile.LineKinds` | daemon/pkg/watcher/watcher.go:99-112 | blank and comment lines are passed over, and lines without exactly two colons are malformed |
| `RosterFile.RequestIff` | daemon/pkg/watcher/watcher.go:99-125 | exactly which request a line is read as, however it is spaced |
| `RosterFile.LineRoundTrip` | daemon/pkg/watcher/watcher.go:99-125 | a printed line is read back exactly if both fields are non-empty, trimmed and free of colons |
| `RosterFile.RosterRoundTrip` | operator/internal/tenant/aggregate.go:237-278 | printer and parser undo each other on printable rosters |
| `RosterFile.AggregatedRosterRoundTrip` | operator/internal/tenant/aggregate.go:237-278 | the daemon reads without error exactly the included principals' requests, by ascending UID |
| `NodeFilter.BuildNodeLabels` | operator/internal/tenant/aggregate.go:325-345 | exactly the nodes with labels, and no key at all, rather than an empty map, without any |
| `NodeFilter.BuildRosterCmData` | operator/internal/controller/tenant_helpers.go:121-136 | which keys the ConfigMap has; node labels only beside selectors |
| `NodeFilter.PublishRoster` | operator/internal/controller/tenant_reconciler.go:172-195 | the published ConfigMap is that of the aggregation and the node snapshot, without node labels if listing the Nodes failed |
| `NodeFilter.LoadSelectors` | daemon/pkg/watcher/nodefilter.go:44-70 | keeps exactly the entries with a numeric key and a label; only an unreadable file is an error |
| `NodeFilter.ApplyNodeFilter` | daemon/pkg/watcher/watcher.go:380-416 | keeps the requests that match the node, in order; none of them is added |
| `NodeFilter.UnreadableFiles` | daemon/pkg/watcher/watcher.go:380-416 | without readable selectors nothing is filtered out; without readable labels everything restricted is |
| `NodeFilter.ProjectionPreservesMeaning` | daemon/pkg/watcher/nodefilter.go:114-135 | the daemon's decision after encoding is `nodeMatchesSelector` on the live labels; without a snapshot only unrestricted principals match |
| `NodeFilter.DaemonActsOnMatching` | daemon/pkg/watcher/watcher.go:211-230 | end to end, the daemon acts on exactly the included principals whose selector matches its node |
| `Daemon.GuardIff` | daemon/pkg/watcher/watcher.go:427-441 | the file name guard lets exactly the non-negative UIDs through |
| `Daemon.Mint` | daemon/pkg/kerberos/kerberos.go:75-99 | succeeds exactly if the request is valid and every step works; a later failure leaves the file |
| `Daemon.Processor.AdoptPreExisting` | daemon/pkg/watcher/watcher.go:301-346 | adopts exactly the cache files on disk whose UID the roster names |
| `Daemon.Processor.PruneStale` | daemon/pkg/watcher/watcher.go:427-453 | removes the managed files outside the roster that can be removed, and stops managing all of those |
| `Daemon.Processor.Sweep` | daemon/pkg/watcher/watcher.go:238-283 | every request succeeds or fails; what is managed, on disk and removed afterwards |
| `Daemon.Processor.ProcessRoster` | daemon/pkg/watcher/watcher.go:211-283 | a sweep of the filtered roster; a missing roster changes nothing |
| `Daemon.RemovedIff` | daemon/pkg/watcher/watcher.go:427-453 | a sweep removes exactly the files of managed UIDs outside the roster that are there and can be removed |
| `Daemon.FileAfterIff` | daemon/pkg/watcher/watcher.go:211-283 | after a sweep a file is there exactly if a mint wrote it, or it was there and was not removed |
| `Daemon.ManagedAfterIff` | daemon/pkg/watcher/watcher.go:272-280 | after a sweep a UID is managed exactly if it was just minted, or was managed and is kept |
| `Daemon.SuccessesMean` | daemon/pkg/watcher/watcher.go:245-262 | the count of successes is full exactly if every attempt of the sweep worked, and 0 exactly if none did |
| `Daemon.UnwantedFilesGo` | daemon/pkg/watcher/watcher.go:232-283 | in every run, a pruning sweep rids the node of the file of a managed UID that its roster lacks |
| `Daemon.ManagedIsOurs` | daemon/pkg/watcher/watcher.go:285-346 | in every run a managed UID is non-negative and comes from the startup roster or an own mint |
| `Daemon.PruneIsSafe` | daemon/pkg/watcher/watcher.go:232-283 | a removed file is from the startup roster or an own mint, never in the roster being swept; after a pruning sweep only roster UIDs are managed |
| `Daemon.ForeignFilesSurvive` | daemon/pkg/watcher/watcher.go:292-298 | a file of a UID neither adopted nor minted stays through every run |
| `PollLoop.StreamIff` | daemon/pkg/watcher/watcher.go:173-207 | two NUL-free inputs are hashed from the same bytes exactly if they are equal or the same text is one's only selectors and the other's only node labels |
| `PollLoop.StreamInjective` | daemon/pkg/watcher/watcher.go:187-207 | with node labels only beside selectors the bytes give away all three files, absent or empty |
| `PollLoop.StreamAmbiguous` | daemon/pkg/watcher/watcher.go:191-207 | without that, any text gives two inputs with the same bytes |
| `PollLoop.PublishedChangesShow` | operator/internal/controller/tenant_helpers.go:121-136 | what the operator publishes always meets the condition: every change shows |
| `PollLoop.StartLoop` | daemon/pkg/watcher/watcher.go:487-548 | which ticks sweep: a changed hash or due tickets; a failed hash never; no start without a first hash |
| `PollLoop.SweepsIff` | daemon/pkg/watcher/watcher.go:526-546 | a tick sweeps exactly if its hash differs from the latest sweep's, or renew has passed since that ended |
| `PollLoop.SweepsOnChange` | daemon/pkg/watcher/watcher.go:526-546 | so, in terms of the mounted files, exactly on a change or when tickets are due |
| `PollLoop.NextSweepInTime` | daemon/pkg/watcher/watcher.go:518-546 | each tick comes within renew + period of the last sweep's end, and sweeps once renew has passed |
| `PollLoop.QuietTickIff` | daemon/pkg/watcher/watcher.go:526-546 | a tick that does not sweep leaves the daemon up to date exactly if nothing changed between the last sweep's hash and its read |
| `PollLoop.ChangesAreSwept` | daemon/pkg/watcher/watcher.go:526-546 | if nothing reverts within a tick interval, every tick sweeps or finds what the daemon last acted on |
| `PollLoop.RevertIsMissed` | daemon/pkg/watcher/watcher.go:526-546 | a change read by a sweep after its hash and reverted before the next tick goes unnoticed |
| `Finalizer.TokenIff` | operator/internal/controller/principal_finalizer.go:461-472 | the message for one UID contains another's token exactly if the latter's digits start the former's |
| `Finalizer.PurgeConfirmed` | operator/internal/controller/principal_finalizer.go:432-486 | confirmed exactly without a DaemonSet, with none desired, or with as many distinct confirming pods as desired |
| `Finalizer.ConfirmedPodsMean` | operator/internal/controller/principal_finalizer.go:461-483 | exactly which pods count: those with a prune Event on the pod, the token in its message, and a clock not before the deletion; no mint Event does |
| `Finalizer.CompactFinalizers` | operator/internal/controller/principal_finalizer.go:517-529 | the compaction within one backing array leaves the other finalizers, in order, and notices whether there was one to remove |
| `Finalizer.OthersKept` | operator/internal/controller/principal_finalizer.go:508-544 | only this controller's finalizer goes; the others keep their number |
| `Finalizer.NothingToRemove` | operator/internal/controller/principal_finalizer.go:526-528 | the list is unchanged, and no update sent, exactly if the finalizer is not on it |
| `Finalizer.Reconcile` | operator/internal/controller/principal_finalizer.go:242-337 | a deleting principal is released on confirmation or at its deadline and waits otherwise; exactly when one is released for want of a Tenant, retried, or maintained, and whether the finalizer is added first |
| `Finalizer.DecideMeans` | operator/internal/controller/principal_finalizer.go:318-337 | released on confirmation, or at an age of the Tenant's timeout or 60s; else it waits the time left, 5s at most |
| `Finalizer.WaitIsBounded` | operator/internal/controller/principal_finalizer.go:318-337 | a wait is positive, at most 5s, not past the deadline, and uses up one of the remaining reconciles |
| `Finalizer.BoundedRelease` | operator/internal/controller/principal_finalizer.go:318-337 | whatever Events and DaemonSet do, release comes within ceil(remaining / 5s) reconciles, by the first one or by the deadline and the most that a reconcile may be late |
| `PurgeLinks.SweepIsMintThenEnd` | daemon/pkg/watcher/watcher.go:238-283 | the daemon's sweep is, seen from one UID, the mint and prune steps of the protocol; exactly when it removes the file, and that a successful mint is managed |
| `PurgeLinks.RestartAdopts` | daemon/pkg/watcher/watcher.go:301-346 | what a starting daemon adopts is, seen from one UID, the protocol's restart: a listed UID with its file or one whose name reads the same |
| `PurgeLinks.DeletionCallsForGone` | operator/internal/controller/tenant_reconciler.go:312-334 | the roster the objects call for lacks the UID, on every node, unless an active principal has it |
| `Purge.RunInv` | daemon/pkg/watcher/watcher.go:211-283 | in every run, with lost Events, abandoned lists and Events of every other kind, a pod that pruned after the deletion has no file, and no roster, published, being built or in the operator's lagging cache, that would bring it back |
| `Purge.ConfirmedReleaseIsSafe` | operator/internal/controller/principal_finalizer.go:286-337 | a release by confirmation means every pod pruned since the deletion and none holds the file then or later, until another principal gets the UID |
| `Purge.ConfirmedMeansPruned` | operator/internal/controller/principal_finalizer.go:432-486 | settled or not, at least as many distinct confirming pods as there are means every pod has pruned since the deletion |
| `PurgeLimits.PrefixMisleads` | operator/internal/controller/principal_finalizer.go:461-472 | if the UID starts another's decimal form, a deletion in any state with the file on a node, in mid-sweep or not, can be released early |
| `PurgeLimits.OneStampMisleads` | operator/internal/controller/principal_finalizer.go:473-483 | one pod's own Event, stamped from the deletion on, stands in for its prune while the others prune |
| `PurgeLimits.UnsettledMisleads` | operator/internal/controller/principal_finalizer.go:432-486 | in any state that is not settled, with the pods holding the file, one of them can prune, confirm and mint again before the release |
| `PurgeLimits.EarlyReleaseIff` | operator/internal/controller/principal_finalizer.go:432-486 | with every pod holding the file, an early release is possible if and only if the cluster is not settled, a UID around has this one as a decimal prefix, or an Event of it is already stamped at the deletion |
| `PurgeLimits.ConfirmableIff` | operator/internal/controller/principal_finalizer.go:432-486 | Events can confirm a deletion if and only if every pod holds and manages the file, may still mint it, or has it and may still adopt it |
| `Writers.SetCondition` | operator/internal/controller/tenant_helpers.go:72-92 | updates the first condition of its type or appends one |
| `Writers.ConditionIsSet` | operator/internal/controller/tenant_helpers.go:72-92 | the condition is as asked for, with its transition time kept while its status stays; the others are untouched |
| `Writers.WriteKeepsOthers` | operator/internal/controller/principal_finalizer.go:617-702 | an accepted write changes only its writer's fields, in the object as it is at that moment |
| `Writers.FreshAttemptLands` | operator/internal/controller/principal_finalizer.go:617-702 | an attempt on the current version gets its job done: status, KVNO or finalizer |
| `Writers.StatusIsLastWrites` | operator/internal/controller/principal_finalizer.go:783-805 | in every interleaving both halves of the status are what their own writer last wrote |
| `Writers.SkipIsRightIff` | operator/internal/controller/principal_finalizer.go:788-796 | in every run a skipped KVNO write leaves what it was asked for exactly if no KVNO was stored above the version it read, or the latest one was the same |
| `Writers.StaleSkip` | operator/internal/controller/principal_finalizer.go:788-796 | for every object and every other KVNO, a run in which a stale read makes the write that is needed be skipped |
| `Writers.PutRespectsOwner` | operator/internal/controller/tenant_helpers.go:144-206 | whatever it read, an upsert creates what is absent or rewrites what its Tenant owns at that moment, keeping the owners |
| `Writers.FreshPutLands` | operator/internal/controller/tenant_helpers.go:155-206 | an upsert that has read the current state gets its object there, unless it is someone else's |
| `Writers.OwnedByMeans` | operator/internal/controller/tenant_helpers.go:144-153 | the owner is a controller reference with the Tenant's UID and name |
| `Writers.ForeignObjectSurvives` | operator/internal/controller/tenant_helpers.go:138-206 | an object that is not the Tenant's stays as it is through every interleaving of its reconcilers |
| `Pending.KeyInjective` | cli/kubectl-krb/internal/tui/pending.go:94-97 | keys tell kind, namespace and name apart when kinds and namespaces have no slash |
| `Pending.SigIff` | cli/kubectl-krb/internal/tui/pending.go:122-131 | a principal's signature tells exactly which nodes report a mint, in whatever order |
| `Pending.ConvergedMeans` | cli/kubectl-krb/internal/tui/pending.go:184-201 | what the text comparisons decide: a new hash without children, nothing ready when disabled, else a move and two stable refreshes |
| `Pending.StableTicksMeans` | cli/kubectl-krb/internal/tui/pending.go:297-304 | the counter reaches two exactly if the last three signatures were the same |
| `Pending.ClearsIff` | cli/kubectl-krb/internal/tui/pending.go:184-201 | whatever was observed, an enabled Tenant with principals clears exactly if it differs from before the action and the last three observations were the same |
| `Pending.ClearsOnFirstMove` | cli/kubectl-krb/internal/tui/pending.go:289-304 | so one that stood still for three refreshes clears at its first move |
| `Pending.ClearsMean` | cli/kubectl-krb/internal/tui/pending.go:272-305 | a principal's action clears exactly when the principal is gone or its signature has changed, and any action after 120s |
| `Pending.StartRecords` | cli/kubectl-krb/internal/tui/pending.go:223-250 | what starting an action records, and that it leaves everything else as it is |
| `Pending.JustStartedStays` | cli/kubectl-krb/internal/tui/pending.go:223-250 | an action does not clear against the snapshot it was started on |
| `Pending.StartsWhenFree` | cli/kubectl-krb/internal/tui/list.go:78-100 | the disable key and the selector form start an action exactly when nothing blocks it and its object is on screen |
| `Pending.MessagesMean` | cli/kubectl-krb/internal/tui/app.go:114-190 | what a refresh keeps and how it counts, and what a failed refresh and a failed action do |
| `Pending.AppModel.CheckPendingConflict` | cli/kubectl-krb/internal/tui/pending.go:403-439 | blocks exactly on the object's own entry, the parent's, or a child's |
| `Pending.AppModel.StartAction` | cli/kubectl-krb/internal/tui/pending.go:223-250 | an entry is added only when nothing blocks it |
| `Pending.AppModel.ResolvePending` | cli/kubectl-krb/internal/tui/pending.go:264-326 | drops exactly the converged and the timed out entries, in any order of visit, and counts an observation for the others |
| `Pending.AppModel.Handle` | cli/kubectl-krb/internal/tui/app.go:114-190 | the effect of each message on snapshot and entries; a failed refresh has none |
| `Pending.BlockedMeans` | cli/kubectl-krb/internal/tui/pending.go:381-398 | an action waits exactly for its own object, its parent Tenant or its child principals, never for siblings |
| `Pending.SessionSafe` | cli/kubectl-krb/internal/tui/pending.go:381-439 | in every session no Tenant is pending together with one of its principals, and pending principals are on screen |
| `Pending.RefreshBounds` | cli/kubectl-krb/internal/tui/pending.go:252-326 | after a refresh no entry is older than 120s and every pending object exists |

## Left out

- Kubernetes client, watches, predicates, leader election and RBAC objects: only a versioned store with conflict on stale updates is kept.
- DaemonSet rendering, `upsertOwnedDS` and the role upserts: templates, and the same ownership guard as ConfigMap and Secret.
- Admission webhooks, CLI subcommands and TUI rendering, forms and toasts: short independent branches or presentation.
- MD5, SHA-256 and `RosterHash`: the model has the bytes that are hashed and takes the hash as injective where a theorem needs it.
- JSON: a value written under a key is taken to be the value read back.
- `filepath.Join`: a request names its keytab file and its UID instead of paths.
- The pattern `\buid=(\d+)\b` in Event messages: an Event carries what the pattern finds.
- kinit, chown, chmod, the KDC and file reads: each step has any outcome; a failed mint may leave a file behind.
- Condition, verdict and log messages: only reasons and statuses are kept; conditions carry an opaque message.
- Widths: UIDs are int64 where text is read back; int32 counts, durations and times are unbounded, a time being nanoseconds from Go's zero time.
- Strings are sequences of Unicode code points; invalid UTF-8 is not modelled.
- `sort.Slice` is modelled by one stable sort; nodes with equal names could come out in another order.
- Locks: every method of the cache is one atomic step, and a sweep reads its mounted files as of one moment.
- Purge.Next: pods neither come nor go during a deletion, purge Events come only from them, no foreign process writes the ticket cache of the UID, and the operator's caches go through one sequence of views, in which later label changes do not overtake the deletion.
- Purge.ConfirmedReleaseIsSafe: says nothing of the file once another principal has had the UID since the deletion.
- Aggregate.Aggregate: with several sources for one principal, which files get dropped is left open, as it depends on which collision is met first; `Tenant.SourcesDistinct` shows that its caller never gives several.
- PollLoop.StartLoop: hashing takes no time, and a companion file that exists but cannot be read counts as missing.
- Finalizer.Reconcile: the status writes of a principal that is not being deleted are one action; what they compute and how they interleave is in `Status` and `Writers`.
- `countPrincipalsFor`, `mapNodeToTenants`, `Principals` of a keytab and `EnctypesString`: plain counting, listing and joining, on which nothing else here depends.
