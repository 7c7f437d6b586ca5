# Nvoy, modelled and proved in Dafny

Nvoy delegates data by handing out a key per scope and generation, and revokes by rotating that key. This project models
the parts of the system in which that promise is kept or lost, in the form the source has them (classes for the objects
that are updated in place, methods with loops for the loops, functions for what is computed), and proves what the parts
guarantee together, over every input and every run.

Run `dafny verify dfyconfig.toml` in this directory.

## What is modelled

- `Basics.dfy`, `Records.dfy`: optional values, stable sorting, the insertion-ordered `Map`; the records that travel.
- `Relay.dfy`: the relay with NIP-01 replacement (section "Kinds" of NIP-01), the publishing clock, `fetchScope`, the stored
  Grant Index. Which publishes the network lets through is an arbitrary sequence of yes and no, and every query may go
  unanswered, in which case it finds nothing.
- `LedgerLog.dfy`, `Planners.dfy`, `Rotation.dfy`, `Arcs.dfy`, `Relinquish.dfy`: the trimmed event log, the delegation rows
  derived from it, the expiry and relinquishment plans, and what a rotation does to all of them.
- `Console.dfy`, `Deliveries.dfy`: the delegator's operations as methods that publish and may break off after any publish,
  and what they hand out and record, field by field.
- `Lifecycle.dfy`: runs of one delegator, its relay and its agents: issue, add a grantee, rotate (completed, refused or broken
  off anywhere), notices of revocation, agent refresh and read, and traffic of others. The relays that answer a read may have
  missed any number of the latest publishes, or none may answer. `StaleNotice.dfy` and `Reload.dfy`: runs in which an old
  notice, or a relay that lags behind, stops a listed agent, and what loading the index again brings.
- `KeptTerms.dfy`: over the same runs, that whoever is listed holds its newest grant under the terms on record.
- `GrantStore.dfy`, `ScopeCache.dfy`, `Runtime.dfy`: the agent runtime with real key buffers and shared payload objects.
- `Terms.dfy`, `Redelegation.dfy`, `Lineage.dfy`, `Cascade.dfy`, `SubIssuerRuns.dfy`: re-delegation, its budget, and the
  recursive cascade over the lineage graph, alone and over whole runs. `MissedLoads.dfy`, `Overflow.dfy` and `LostRecord.dfy`: the
  same runs when index loads go unanswered, a run that outgrows the lineage, and issuances whose record gets lost.
- `Capabilities.dfy`: the public capability read when only some relays answer.
- `Unwrap.dfy`: the paginated walk over gift wraps.
- `Deploy.dfy`: the deploy tick with every command free to fail.

## What was found

Each of these is a lemma with the exact condition or a concrete witness.

- A rotation broken off between the new data set and the last grant leaves the scope stuck: the entry's key no longer opens
  the data set, so every later rotation of that scope is refused (`Lifecycle.TornIsStuck`), and exactly those scopes are
  affected (`Lifecycle.RunKeeps`). Nobody gains access by it (`Lifecycle.AbortedRotationIsSafe`, `Lifecycle.TornIsSafe`).
- An agent may record its own current grant as revoked. This happens when the relays that answer its read are still at an
  earlier generation, whose data set its newer key does not open, or when they have no data set to show and a notice of any
  earlier revocation of that agent is found. A listed agent then does not read any more at that generation, and what it
  re-delegated is severed. As far as this model goes, nothing else keeps a survivor from healing (`Lifecycle.SurvivorsHeal`,
  `StaleNotices.OldNoticeStops`, `StaleNotices.LaggingRelayStops`).
- A survivor is granted the next generation under the terms of its newest granted event that the log retains. Once the log has
  trimmed that event, a rotation hands it the scope without any terms (`Deliveries.RotationDelivers`).
- Loading the index again loses what is in memory if and only if some operation recorded something, its save got lost, and no
  operation was finished since (`Reloads.ReloadIsLossless`); an added grantee who reads may be lost that way
  (`Reloads.UnsavedAddIsForgotten`).
- An issuance to a leaf that broke off after its grant was delivered is never counted against the budget and never severed:
  the leaf reads for good, whatever is revoked (`LostRecords.LostRecordIsForGood`).
- An index load that goes unanswered reads as an empty index. The re-delegation budget and the cascade hold exactly as long
  as no such miss lets a forbidden issuance pass, is written over an index that was not empty, or ends a cascade that had
  something to sever (`MissedLoads.MissesMatter`, `MissedLoads.RunIsAnswered`, `MissedLoads.MissedCheckCostsTheBudget`).
- An expiry rotation relabels a pair that ended earlier in the same scope exactly when that pair's own deadline is over
  (`Arcs.ExpiryArc`); a dropped holder without a granted event on record disappears from the rows (`Arcs.EndsAs`).
- The re-delegation budget is guaranteed for the whole history while the lineage has not overflowed its 500 rows, and after
  that for every parent none of whose rows was trimmed (`SubIssuerRuns.BudgetOverRuns`, `SubIssuerRuns.UntrimmedStaysWithin`).
  A parent with a trimmed row may exceed it (`SubIssuerRuns.OverflowReopensBudget`); there is a run that gets there
  (`Overflow.NinthChild`).
- The scope cache is keyed without the generation, so a superseded grant is served what a newer one fetched
  (`ScopeCaches.GenerationIsNotPartOfTheName`).
- Any other failed attempt ends the hold on a failed release, so reverting a manifest edit makes the first attempt again at
  once (`Deploys.FailureIsHeld`, `Deploys.OtherFailureEndsTheHold`).
- The paginated walk is complete exactly when at most 20 pages are needed, no page boundary splits a second, and no page ends
  at second 1, where the next `until` would be 0 and is not sent (`Unwraps.EverythingIsUnwrapped`).
- A manifest edit that arrives together with a release that renders the same Compose file is recorded as deployed although
  the stack still runs with the old manifest (`Deploys.EditHiddenByRelease`, `Deploys.ManifestsAreRead`).
- Two publishes of one replaceable event in the same second lose the later one on a conforming relay
  (`Relays.TieLosesTheUpdate`); increasing timestamps are what makes replacing by arrival and by age the same
  (`Relays.LastWinsIsNewestWins`).

## Model

| member | source | states |
|---|---|---|
| Relays.CurrentIsStored | lib/relay.mjs:15-34 | a query for one replacement identity answers with the one stored event of that identity, or with nothing when there is none |
| Relays.KindsAre | lib/relay.mjs:9-18 | exactly the kinds of the thirty thousands replace by identity and tag, and exactly 0, 3 and those of the ten thousands by identity |
| Relays.EventsAre | lib/nipxx.mjs:50-129 | what the five kinds of event say, and that data sets and indices replace their predecessors while wraps pile up |
| Relays.QueryIs | lib/relay.mjs:30-34 | a query answers with exactly the stored events that match, newest first, and those of one second as they were stored |
| Relays.FetchIs | lib/nipxx.mjs:213-225 | a dereference is missing exactly without a data set, and reads exactly one of no later generation that the key opens; stale names the generation found |
| Relays.PublishReplaces | lib/relay.mjs:15-28 | publishing makes an event the current one of its identity, keeps one event per identity, and changes no other identity |
| Relays.LastWinsIsNewestWins | lib/nipxx.mjs:287-292 | for events stamped with increasing timestamps, replacing by order of arrival and NIP-01's keep-the-newer give the same relay |
| Relays.TieLosesTheUpdate | lib/nipxx.mjs:287-292 | with equal timestamps they differ: the second event is the one that is lost |
| Relays.Clock.Now | lib/nipxx.mjs:291-292 | every timestamp is above all earlier ones and not below the wall clock, and leads it only by following the previous one |
| Relays.Relay.Publish | lib/relay.mjs:23-28 | a signed event that gets through replaces what it supersedes; a badly signed or lost one leaves the relay as it was |
| LedgerLog.DeriveDelegations | console/ledgerlog.mjs:109-165 | the passes over entries, log, holders and pairs compute the row list that the lemmas below characterise |
| LedgerLog.DeriveIs | console/ledgerlog.mjs:109-165 | the list holds exactly one right row for every pair ever granted (as far as the log remembers) or held now, in the documented order |
| LedgerLog.DeriveOnce | console/ledgerlog.mjs:109-165 | no delegation is listed twice |
| LedgerLog.RowsSay | console/ledgerlog.mjs:137-163 | every row, against the entries and the log by position: name and generation of the last entry of its scope, terms of its newest granted event, date of its first, and the status that the holder list, its own deadline and the newest event that ended it call for |
| LedgerLog.RowsInOrder | console/ledgerlog.mjs:164-165 | active rows come first, then expired, relinquished and revoked ones, and within each the newest |
| LedgerLog.AllPairsAre | console/ledgerlog.mjs:109-130 | a pair is known if and only if a granted event of it is retained or it is held, and its terms are those of the newest such event |
| Rotation.TermsFade | console/ledgerlog.mjs:31-34 | appending other events never changes a pair's terms on record; trimming can only let them be forgotten |
| Planners.ExpiryRotationPlan | console/ttl.mjs:63-75 | the loop over the derived rows computes the plan that the next row characterises |
| Planners.PlanIsExact | console/ttl.mjs:63-75 | one non-empty item per scope, listing exactly the holders of the current generation whose deadline is over, and no due scope missing |
| Planners.NextExpiry | console/ttl.mjs:79-85 | the loop computes the soonest deadline still ahead |
| Planners.QuietUntilNext | console/ttl.mjs:79-85 | until the armed moment, or for ever when there is none, rows and plan are those of now |
| Planners.DueAtNext | console/ttl.mjs:79-85 | at the armed moment somebody is due who was not before |
| Rotation.HeldAfter | console/ttl.mjs:47-49 | a rotation takes exactly the dropped agents of exactly that scope off the holder lists, and scopes stay unique |
| Rotation.SweepConverges | bin/nvoy-ttl.mjs:53-67 | after a sweep exactly the due holders of every scope that went through are gone, what is still due belongs to a scope that failed, and a sweep without failures leaves an empty plan, trimmed log or not |
| Consoles.Console.SweepExpired | bin/nvoy-ttl.mjs:53-67 | each item is rotated past its lapsed holders, from the index that the load brings, one after the other and logged as an expiry; exactly the scopes that did not finish are skipped, only holders there can still be due, and survivors keep holding |
| Arcs.OthersReadAsBefore | console/ledgerlog.mjs:109-165 | without trimming, every survivor and every other scope derives as before a rotation, apart from the survivors' new generation |
| Arcs.ExpiryArc | console/ttl.mjs:89-95 | an expired holder that is dropped derives as expired at any later time; an earlier ending is relabelled exactly when that pair's own deadline is over |
| Arcs.RevokeArc | console/ledger.mjs:726-732 | a revoked agent derives as revoked, and pairs that ended earlier keep their ending |
| Arcs.RelinquishArc | console/ttl.mjs:131-139 | a relinquishing agent derives as relinquished, and pairs that ended earlier keep their ending |
| RelinquishPlans.RelinquishPlan | console/ttl.mjs:108-127 | the loop over the notices computes the two plans that the next rows characterise |
| RelinquishPlans.PlanIs | console/ttl.mjs:108-127 | auto items name distinct scopes and sole holders; each pair with a notice and a holding agent is in exactly one plan, the one its scope calls for, and once there; every item carries the reason and time of the newest notice of its pair and the entry's name, generation and count of other holders |
| RelinquishPlans.ReplanIsQuiet | console/ttl.mjs:97-139 | once every auto item is executed, the same notices plan no auto item and the identical confirm list |
| Consoles.Console.RotateWithTerms | console/nvoygrant.mjs:100-109 | the new data set goes out first, then one grant per survivor under the terms on record; a failure leaves exactly a prefix of that |
| Consoles.Console.RotateDropping | console/ttl.mjs:29-54 | refused without a trace exactly when the scope is not indexed or cannot be read back, an unanswered query included; otherwise a prefix of the publishes, cut short only by a lost one, under a key that was never drawn before, and the index moves only once all of them are out; what those publishes are is the subject of `Deliveries` |
| Consoles.Console.RunExpiryRotation | console/ttl.mjs:89-95 | the rotation of one plan item, with the expiry event of that scope |
| Consoles.Console.RunRelinquishRotation | console/ttl.mjs:131-139 | the rotation past one agent, with the relinquished and rotated events |
| Consoles.Console.RevokeNow | console/ledger.mjs:712-737 | the rotation past one agent; the notice is sent only after a complete rotation and only with a reason |
| Consoles.Console.AddGrantee | console/ledger.mjs:630-648 | the same key and generation for one more identity, delivered before it is recorded; a present grantee or an unknown scope is refused without a trace |
| Consoles.Console.IssueGrant | console/delegate.mjs:264-285 | data set, grant, one save of entry and event, in that order, broken off anywhere |
| Consoles.HolderTerms | console/ttl.mjs:39-42 | the terms a survivor is re-granted under are those of the newest retained granted event |
| Deliveries.RotationDelivers | console/ttl.mjs:36-45 | after a finished rotation every survivor holds a grant of the next generation, under the new key and the old name, with the terms of the newest granted event that the log retains for it, or none if it retains none |
| Deliveries.RotationRecords | console/ttl.mjs:46-53 | and exactly that one entry moved on: next generation, new key, same name, the dropped identities gone and no others, while the log got this rotation's events at its end |
| Deliveries.RunnersLog | console/ledgerlog.mjs:36-52 | what the three kinds of rotation log: generations moved from and to, survivors, who left, when and why; an empty reason is none |
| Deliveries.AddDelivers | console/ledger.mjs:630-648 | after a finished addition the identity holds the current generation under exactly the terms asked for, and entry and log say so |
| Deliveries.IssueDelivers | console/delegate.mjs:264-285 | after a finished issue the agent holds generation 1 of the scope under exactly the terms asked for, its key reads the data, and entry and log say so |
| KeptTerms.RunnersGrantNothing | console/ttl.mjs:89-95 | none of the three kinds of rotation logs a granted event, which the next row asks of the rotations of its runs |
| KeptTerms.ListedHoldTheirTerms | console/ttl.mjs:39-42 | in every run of which no rotation of the scope broke off, the newest grant of a listed identity has the entry's generation, key and name, and the terms it was last granted under as long as the log retains that event |
| Lifecycle.RunKeeps | console/ttl.mjs:29-54 | in every reachable state every entry either tells the truth or is torn, and a scope is torn if and only if some rotation of it stopped between its data set and its last grant |
| Lifecycle.IndexTruth | lib/nipxx.mjs:196-225 | in every run an entry lists exactly the identities whose newest grant opens the data set if and only if no rotation of its scope stopped half way; and then everyone else has only older grants and no key of this generation |
| Lifecycle.AbortedRotationIsSafe | console/ttl.mjs:30-53 | wherever a rotation stops, new grants went only to old grantees that are not dropped, a dropped identity cannot read the new data set, and a rotation is refused exactly when its read-back fails, changing nothing |
| Lifecycle.TornIsSafe | console/ttl.mjs:36-37 | after a torn rotation nobody but former grantees can read, and the entry's key opens nothing |
| Lifecycle.TornIsStuck | console/ttl.mjs:36-37 | every later rotation of a torn scope is refused and changes nothing |
| Lifecycle.SurvivorsHeal | mcp/src/app.ts:288-303 | in every run, after a full refresh an agent is active and reads if and only if the entry lists it and no earlier read of it at the current generation was misled: answered by relays still at an earlier generation, or by none with a data set while a notice of the scope for it was found; a recorded revocation never exceeds the current generation and reaches it only in that way |
| Lifecycle.RecordIsExact | mcp/src/app.ts:95-108 | at any point of a run the record stands at the current generation if and only if some earlier read at that generation was misled in that sense |
| StaleNotices.OldNoticeStops | mcp/src/app.ts:295-303 | a run: issue, revoke with a notice, grant again, refresh, one unanswered query; the agent is listed, refreshes, and does not read |
| StaleNotices.LaggingRelayStops | lib/liverelay.mjs:37-43 | a run without any notice: issue, revoke, grant again, refresh, one query answered by a relay that missed the rotation; the agent is listed, refreshes, and does not read |
| Reloads.ReloadIsLossless | lib/nipxx.mjs:247-254 | over a run, loading the index again brings exactly what is in memory if and only if every operation whose save got lost is followed by a finished one; otherwise what is loaded lags behind in some entry |
| Reloads.UnsavedAddIsForgotten | console/ledger.mjs:638-646 | after an added grantee whose save got lost, the loaded entry does not list an identity that reads |
| Lifecycle.PastForGood | lib/nipxx.mjs:213-225 | a grant that its scope has moved past is stale in every later state of the run |
| Lifecycle.LatestIs | lib/nipxx.mjs:196-204 | the grant kept for a scope is one of those received, and no other of that scope has a higher generation |
| GrantStores.LatestGrants | lib/nipxx.mjs:196-204 | the loop with its `Map` keeps the newest grant per publisher and scope, the first among equals |
| GrantStores.LatestGrantsKeepLatest | lib/nipxx.mjs:196-204 | for every publisher the kept grants have the same newest grant per scope as all received ones |
| GrantStores.GrantStore.List | mcp/src/grants.ts:191-199 | a refresh happens exactly when the cache is missing or too old; it yields fresh objects for the newest grants, decorated and zeroed as the records say, and keeps the records |
| GrantStores.GrantStore.Find | mcp/src/grants.ts:202-207 | finds the cached grant; after the second look a miss means that no such grant was delivered, unless the cache was filled in the same instant |
| GrantStores.GrantStore.MarkRevoked | mcp/src/grants.ts:214-224 | the record never goes down, every cached grant at or below it is decorated and its key bytes are zero, every grant above both records keeps the delivered key |
| GrantStores.GrantStore.MarkRelinquished | mcp/src/grants.ts:233-243 | the same for relinquishments, which leave the revocations alone |
| GrantStores.GrantStore.ApplyRevocation | mcp/src/grants.ts:251-263 | decorates and zeroes exactly when a record reaches the grant's generation |
| GrantStores.GrantStore.ZeroizeAll | mcp/src/grants.ts:246-249 | every cached key is overwritten and the cache dropped, the records stay |
| ScopeCaches.ScopeCache.ReadScope | mcp/src/scopes.ts:49-62 | a hit exactly within both age limits, otherwise a fetch from whatever the answering relays have, stored when it succeeds; when it fails or nobody answers the entry is dropped |
| ScopeCaches.ScopeCache.Invalidate | mcp/src/scopes.ts:65-67 | the entry is dropped and every other one stays; nothing is severed |
| ScopeCaches.ScopeCache.Zeroize | mcp/src/scopes.ts:70-75 | the entry is gone and its payload is severed for everybody who was handed it |
| ScopeCaches.ScopeCache.SweepExpired | mcp/src/scopes.ts:89-97 | exactly the entries past the ttl are dropped, their payloads severed, and every other entry stays as it was |
| ScopeCaches.StalenessBound | mcp/src/scopes.ts:49-62 | once no fetch brings a data set that is not past the grant, an answer is served for less than the ttl (and the caller's limit) longer, and never by a forced read |
| ScopeCaches.RevocationReachesTheCache | mcp/src/scopes.ts:49-62 | the same over a delegator's run, from the state in which the scope moved past the grant, once no answering relay is behind that state |
| ScopeCaches.GenerationIsNotPartOfTheName | mcp/src/scopes.ts:50-52 | a superseded grant is served from the cache what a newer grant of the scope has fetched |
| Runtimes.Runtime.DetectRevocation | mcp/src/app.ts:95-108 | records the generation, destroys key and plaintext, and runs the cascade from exactly this grant, which severs nothing when the index load goes unanswered; the runtime is valid again |
| Runtimes.Runtime.ScopeRead | mcp/src/app.ts:225-321 | the same from the start: no reply but for a grant of this publisher and scope, sealed exactly when a relinquished grant's scope is found to be rotated, or an active grant's fetch finds a data set that its key does not open or of a later generation, or none while a notice is found; then the cascade from that grant has run if this identity's index could be loaded; a revoked reply means a zeroed key and data the delivered one |
| Runtimes.Runtime.ReadThrough | mcp/src/app.ts:253-320 | the reply that the records, the terms and the cache's answer call for, whatever the answering relays have stored; a sealed grant is recorded with what the notice says, its cache entry is gone and the cascade below it has run, or found no index; otherwise records and relay are untouched; the runtime is valid again |
| Runtimes.Runtime.ReadIsObserved | mcp/src/app.ts:283-303 | an active read past the cache seals exactly when the read of the runs in `Lifecycle` records a revocation |
| Runtimes.Runtime.RelinquishGrant | mcp/src/app.ts:116-141 | key and plaintext are destroyed and recorded whether or not the notice goes out, and the only thing that reaches the relay is a notice to the contact, or else to the publisher, that names the scope, the time and the reason |
| Runtimes.Runtime.SendNotice | mcp/src/app.ts:125-138 | demands that the destruction is already on record and the plaintext gone before anybody is told |
| Runtimes.Runtime.SweepAutoRelinquish | mcp/src/app.ts:149-160 | afterwards no cached grant that asks for it is past its deadline and still held; records change only for grants whose terms called for it, each with the time and the reason, and no revocation record does |
| GrantTerms.TermsSurviveDelivery | mcp/src/terms.ts:50-75 | encoding terms into a grant and parsing them again is the identity, vanilla grants included, and key and name travel beside them |
| GrantTerms.ParseIs | mcp/src/terms.ts:50-75 | there are terms exactly when there is an object for them, nested or flat, and each field is there exactly when it has its type |
| GrantTerms.FlatTermsSurvive | mcp/src/terms.ts:50-62 | terms laid out flat beside the key and the name, under a numeric version, are read as the same terms |
| GrantTerms.StatusIs | mcp/src/grants.ts:163-169 | a grant is expired exactly when no record speaks against it and its deadline, that of its terms before the advisory one, is not ahead; a revocation outranks a relinquishment and that an expiry |
| Redelegation.BoundHolds | mcp/src/redelegate-bound.ts:56-121 | under any field, children admitted one by one exceed neither the parent's own bound nor the defaults of 8 and 4 |
| Redelegation.BoundIs | mcp/src/redelegate-bound.ts:56-87 | exactly `true` and objects of positive limits no wider than 8 and 4 are bounds, absent limits counting as those |
| Redelegation.ValidateIs | mcp/src/subgrants.ts:77-92 | a parent may be derived from exactly when it is active, says `redelegate: true`, is not no_persist, a purpose is given, and the child ends no later than it; a refusal names a rule that is broken |
| Redelegation.LeafReads | mcp/src/subgrants.ts:134-145 | what a leaf parses from its wrap: the terms asked for, a trimmed purpose, and `redelegate: true` if and only if it was asked for in so many words |
| Redelegation.LeafIsALeaf | mcp/src/subgrants.ts:30-33 | a child issued without `redelegate: true` can never be derived from, whatever is asked for |
| Redelegation.Attenuates | mcp/src/subgrants.ts:77-92 | along any chain of derived grants, delivered and re-parsed, a deadline never grows, no ancestor is no_persist and every ancestor said redelegate true |
| Redelegation.ExpiryReachesDescendants | mcp/src/subgrants.ts:89-91 | a descendant is never active when an ancestor has expired |
| Redelegation.IssueDerivedGrant | mcp/src/subgrants.ts:98-161 | refused without a publish unless every check passes on what the queries brought, an unanswered one bringing an empty index or no data set; otherwise a prefix of data set, grant and record, written into the index that the last load brought |
| Redelegation.GateIs | mcp/src/subgrants.ts:110-133 | the checks pass exactly when the parent may be derived from, fewer than 8 children and 4 grantees are recorded (a known grantee is exempt from the latter), the data set was read and the name is a derived one; a refusal names a check that fails |
| Redelegation.PublishesAre | mcp/src/subgrants.ts:134-158 | the three publishes, field by field: a first generation under a new key, that key for the recipient alone with its terms, and the index with this entry and this row added, the oldest row making room |
| Lineage.ClosedIsComplete | mcp/src/subgrants.ts:177-199 | when everything below a newly severed row is severed, every row reachable through live rows is |
| Lineage.LoadedIs | mcp/src/subgrants.ts:50-56 | a load keeps exactly the rows whose two public keys are 64 hexadecimal digits |
| Cascades.Cascade.RevokeChildren | mcp/src/subgrants.ts:177-199 | the recursion ends on every lineage, cycles included, severs only rows reachable from the revoked parent, and all of them when it is not broken off |
| Cascades.ExactlyDescendants | mcp/src/subgrants.ts:177-199 | a finished recursion leaves exactly the rows that reachability over the original graph prescribes |
| Cascades.CascadeDerivedRevocation | mcp/src/subgrants.ts:168-203 | a finished cascade saves the index that reachability prescribes, with every descendant scope emptied at the generation after the issued one under a key nobody holds, and the holder of each was sent a notice; a broken one changes no index and cuts only descendants; one whose load goes unanswered ends at once and touches nothing |
| Cascades.StoppedThenRerun | mcp/src/subgrants.ts:168-203 | running the cascade again after it broke off anywhere ends in the state of an undisturbed cascade |
| Cascades.CascadeTwice | mcp/src/subgrants.ts:168-203 | repeating a finished cascade changes nothing |
| SubIssuerRuns.RunKeeps | mcp/src/subgrants.ts:180-201 | in every state reached with all index loads answered, live rows have an entry and severed rows have none and a dead scope |
| SubIssuerRuns.TombstonesAreDurable | mcp/src/subgrants.ts:180-201 | in every run with all index loads answered a severed row has no entry, its scope is empty above every grant ever given, and each such grant is stale |
| SubIssuerRuns.BudgetOverRuns | mcp/src/subgrants.ts:119-127 | in every run with all index loads answered each parent has at most 8 recorded children and 4 grantees, revoked ones included, and so has all of history while at most 500 children were ever issued |
| SubIssuerRuns.UntrimmedStaysWithin | mcp/src/subgrants.ts:119-127 | overflow or not, a parent none of whose rows was trimmed has at most 8 children and 4 grantees in all of history |
| SubIssuerRuns.OverflowReopensBudget | mcp/src/subgrants.ts:56-57 | in a full lineage one more row of another parent leaves a spent parent with seven rows, which the gate admits again |
| Overflow.NinthChild | mcp/src/subgrants.ts:56-57 | a run of 502 admitted issuances after which one parent's data has gone to nine children while the rows on record are within the budget |
| LostRecords.LostRecordIsForGood | mcp/src/subgrants.ts:132-161 | in every run with all index loads answered, an issuance that broke off between grant and record is in no later entry or row, its data set is never touched and its grant always reads |
| MissedLoads.MissesMatter | mcp/src/subgrants.ts:122-148 | a step with unanswered index loads is a step with answered ones if and only if no miss passes a forbidden issuance, is written over an index that was not empty, or ends a cascade that had something to sever |
| MissedLoads.RunIsAnswered | mcp/src/subgrants.ts:122-173 | the same for whole runs |
| MissedLoads.BudgetSurvivesMisses | mcp/src/subgrants.ts:119-127 | in every run in which no missed load mattered the budget holds as above |
| MissedLoads.TombstonesSurviveMisses | mcp/src/subgrants.ts:180-201 | in every run in which no missed load mattered severed rows stay dead as above |
| MissedLoads.MissedCheckCostsTheBudget | mcp/src/subgrants.ts:122-126 | an issuance that completes after a missed load before its budget check keeps the budget if and only if the stored rows would have admitted it |
| Capabilities.ReadSet | mcp/src/capabilities.ts:61-71 | counts the completed answers and merges them by event id |
| Capabilities.ReadHeldCapabilities | mcp/src/capabilities.ts:73-169 | the two queries, the revocation fold and the rows compute the reading that the next row characterises |
| Capabilities.ReadIs | mcp/src/capabilities.ts:73-169 | one row per sound grant on an answering relay and no second one, with the grant's own fields; revoked if and only if an answering relay holds a sound revocation by the grantor, else unverifiable exactly without full coverage, else expired exactly past the grant's expiration, else active; newest first; nothing at all when nothing was found and some relay was silent; and how many relays completed each query |
| Capabilities.LabelsDiffer | mcp/src/capabilities.ts:17-26 | two capabilities never bear one label |
| Capabilities.PartialRefinesFull | mcp/src/capabilities.ts:73-169 | when more relays answer no row disappears and no status changes except from unverifiable: revoked is never retracted |
| Capabilities.AbsenceNeedsCoverage | mcp/src/capabilities.ts:88-150 | an empty list, active and expired are claimed only when every relay answered, and are then true of all of them: no grant, no revocation, and expired exactly when the grant's expiration is over |
| Unwraps.UnwrapRumors | console/nvoygrant.mjs:137-149 | the walk with its seen-set and until collects what the page recursion prescribes |
| Unwraps.EverythingIsUnwrapped | console/nvoygrant.mjs:137-149 | every stored wrap is collected if and only if 20 pages suffice and no page boundary splits a second or falls after second 1 |
| Unwraps.NothingTwice | console/nvoygrant.mjs:137-149 | no wrap is collected twice and none is invented |
| Deploys.Host.RunCandidate | deploy/runtime-deploy-runner.py:337-370 | no stack is touched before both images are here, the boundary test passed and every candidate file was staged; on success every identity was brought up from its candidate and verified; on failure anywhere, partly started identities included, every identity is untouched or, if its rollback commands work, back on its live file and verified |
| Deploys.Host.RollBack | deploy/runtime-deploy-runner.py:357-369 | every touched identity whose rollback commands work runs its live Compose file again, verified, a stack that already runs it being left alone, or is down if it had none, whatever happens to the others |
| Deploys.Host.Promote | deploy/runtime-deploy-runner.py:372-381 | the deployed commit is written only after all live files and image records, and the manifest record after that, wherever a write fails |
| Deploys.Host.Target | deploy/runtime-deploy-runner.py:264-282 | the target is never older than the deployed commit and never off its line |
| Deploys.Host.Tick | deploy/runtime-deploy-runner.py:252-394 | the whole tick: lock, hold, forward-only target, all-or-nothing candidate, promotion only after every verification, checkout put back; it ends busy, refused when something fails, with a failed attempt, or as it should: refused without an admissible target, current when settled, withheld on hold, rehearsed in a dry run, and deployed otherwise; and when nothing fails it ends no other way |
| Deploys.ReleasesOnlyMoveForward | deploy/runtime-deploy-runner.py:274-282 | over any number of ticks the deployed commit only moves to a descendant |
| Deploys.NoDowngrade | deploy/runtime-deploy-runner.py:274-282 | a commit that was replaced is never deployed again |
| Deploys.DeployedWasVerified | deploy/runtime-deploy-runner.py:344-381 | whatever is recorded as deployed was recorded by a tick that had verified every identity with it |
| Deploys.FailureLeavesNoTrace | deploy/runtime-deploy-runner.py:357-394 | read off the contract of the tick, where the proof lies: a failed candidate with working rollback and checkout commands leaves live files, records and checkout as they were and every identity untouched, on its live file, or down if it had none |
| Deploys.FailureIsHeld | deploy/runtime-deploy-runner.py:306-311 | over any number of ticks, a tick is on hold if and only if its own attempt was noted less than 600 seconds ago and no tick in between noted another attempt or removed the note; no other tick is withheld, and one on hold touches neither stacks, live files, images nor the note, and is withheld when nothing fails and there is something to do |
| Deploys.OtherFailureEndsTheHold | deploy/runtime-deploy-runner.py:306-311 | read off the contract of the tick: after another attempt has failed, the first one is made again before its 600 seconds are over |
| Deploys.EditHiddenByRelease | deploy/runtime-deploy-runner.py:273-304 | read off the contract of the tick: a manifest edited together with a release that renders the same file is recorded but not read, and no later tick at that release recreates the stack |
| Deploys.ManifestsAreRead | deploy/runtime-deploy-runner.py:283-304 | read off the contract of the tick: after a deployment every service has read today's manifest if and only if no stack that was left alone had read another |

## Assumptions

- `index.issued` lists each scope once. `rotateDropping` looks up the first entry and rewrites all of them
  (console/ttl.mjs:30, 47), so with duplicates the claims about holders are false.
- Keys are numbered in the order in which they are drawn, and a new scope id is one for which nothing is on the relay: two
  draws never coincide.
- Others publish what they like, but not in the delegator's name.
- One operation at a time: issuances, cascades, rotations, cache reads and ticks do not interleave with each other inside
  one process.
- An event id determines the event, and relay answers to the capability queries are not truncated; a relay may send events
  along that it was not asked for.
- A query is answered in full by the relays or not at all; relays that disagree with each other are one relay. Exempt are the
  capability read and the refresh of an agent, where any part of the answer may be missing, and an agent's read of a data set,
  where the answer may be an earlier one. The pages of the walk over wraps are answered.
- Clocks are integers; timestamps that the source fuzzes are left blank.

## Left out

- Cryptography, NIP-44, NIP-59 and base64: a sealed payload opens with the key it was sealed under, and a wrap reaches its addressee with its true sender.
- Sockets, HTTP, MCP transport, remote signers, docker, git and GitHub calls: results that may be anything, failure included.
- The pages of the console and everything drawn on them, and the classifiers in console/lineage.mjs, registry.mjs, grantee-kind.mjs, scope-facet.mjs and runtime-facts.mjs: they would add only easy members.
- mcp/src/outbox.ts: it saves an index it cached at first load, so together with the cascade it loses updates.
- Re-delivery of a lost grant (console/ledger.mjs:656-681) and the enrolment of an agent during issue.
- Going on with an index that was loaded after a save got lost, or that a missed load brought to the console: a run in `Lifecycle` keeps the index in memory, and `Reloads` says when a load would bring the same.
- Lifecycle.RunKeeps: does not model a scope id drawn twice or an index edited by a second console.
- Lifecycle.TornIsStuck: does not model a read-back that is answered only by a relay which missed the torn rotation; that one would go through, at the same generation again.
- Lifecycle.SurvivorsHeal: does not model expiry and relinquishment, which also stop an agent from reading, nor a restart of the runtime, which forgets its records; its notices may come at any time, not only after a rotation.
- GrantStores.GrantStore.List: does not model the objects of grants that `latestGrants` discards, nor grant objects a caller kept from before a refresh, which later marks do not reach.
- GrantStores.GrantStore.Find: does not model the time a relay query takes between the two looks.
- ScopeCaches.StalenessBound: does not model a fetch that is overtaken by another one; fetching and storing is one step.
- Runtimes.Runtime.ScopeRead: does not model the text of a revocation notice, which is an input, nor what the wraps query brings, which may be anything.
- Runtimes.Runtime.RelinquishGrant: does not model how a contact decodes to a key, nor a signer that refuses for another reason than having no local key.
- Redelegation.IssueDerivedGrant: does not model a second process that writes the index between the budget check and the record.
- Redelegation.BoundHolds: does not model non-integer JSON numbers in a bound object.
- Redelegation.Attenuates: does not model blanks other than space, tab, newline and carriage return in the purpose.
- Cascades.CascadeDerivedRevocation: does not model the exact count it reports when a lineage is cyclic, only whether it is zero.
- Capabilities.ReadIs: does not model the clean-up of the relay list before the queries, nor which of several revocations is named.
- Unwraps.EverythingIsUnwrapped: does not model several relays behind one query, nor decryption of the wraps.
- Deploys.Host.Tick: does not model how the release lookup chooses a run or saves requests (`pick_release`, `head_status`, `current_release`), nor the log; the lookup's answer is an input that may be anything.
- Deploys.Host.Promote: does not model a write that is torn in the middle of one file, since each file is replaced in one step.
- The order of two rows that derive with equal status and time, beyond being the order of first insertion.
