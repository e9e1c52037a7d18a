# gatewayapiprocessor: a verified model

This project models the in-memory indexes of gatewayapiprocessor, the OpenTelemetry
processor that enriches spans, logs and metrics with Gateway API metadata, and the
enrichment path that reads them. It states, and proves, what those indexes hold after
every run of informer events and what a record looks like after enrichment.

`dafny verify dfyconfig.toml` checks everything.

## How the model is built

- An index is a class whose map fields the informer handlers change in place. A ghost
  field records the run of events handled so far, and `Valid` ties every map to a fold of
  that run. All results about states are lemmas about the fold, so they hold in every
  reachable state. Each mutex-protected method is one atomic step.
- A policy handler is several such steps, and every configured policy kind and namespace has
  its own informer. `PolicyRuns` folds over the steps; a handler's method is given the steps
  others take before each of its own (`PolicyTable.Meanwhile`) and promises what its own are.
- A Go `range` over a map is a loop that picks an arbitrary remaining key; the outcome does
  not depend on the order picked. For policy updates, whose loop bodies take separate locks,
  that is `PolicyRuns.HandlerAlone` without interference and `PolicyRuns.AttachmentsAreExact` with it.
- Keys are structured values. `KeyEncoding` shows when the source's string keys are as good.
- Policy lists are real arrays: appends write into spare capacity, removals shift in place,
  and every snapshot handed to a reader is tracked, so that storage and snapshots stay apart
  is part of `Valid`.
- A record's enrichment makes several separate locked reads. `Resolution.Reads` gives each
  its own state, so the soundness results hold for informer events landing between any two.
- So does a route's projection, which reads the Gateway store, then the class or the sync
  flag, then the Service names, and upserts later. `Projection.Sightings` gives each read its
  own state, and in a whole run each route event carries the moments of its reads
  (`ClusterRuns.Moments`).
- The sync flag is the Gateway informers' HasSynced, not a statement about which handlers
  have filled the store; `ClusterRaces.SyncFlagRunsAheadOfStore` shows the difference.
- Deleting a route runs the same two sweeps as an upsert that wants nothing, so
  `RouteIndex.ReleaseStale` models both.
- The runs of `if x != "" { put }` in the stamping functions are tables of guarded puts.

| file | content |
|---|---|
| Types, History, Text, KeyEncoding | shared entities, runs of upserts and deletes, string helpers, key spellings |
| RouteRuns, RouteResync, RouteIndex | the route index: per-backend automaton, resync, the class |
| PolicyRuns, PolicyTable | policy attachment: steps, handlers and their interleaving; the table of slices |
| ServiceIPIndex, PodIPIndex | the two address indexes and their opposite conflict rules |
| Projection, ProjectedFields, ClusterRuns | route projection with parent inference, its fields, and runs of all informers |
| ClusterRaces, ClusterResync | how far a cached inference can be trusted, tombstones, resync amid store events |
| StaticLookup | the in-memory lookup and its simulation of the index |
| HostNames, EnvoyRoute | host decoding and the default route-name format |
| Resolution, SourceAddresses | the fallback resolver under interleaving, and what its source attributes name |
| Attributes, Enrichment, EnrichmentLaws | the attribute map, one enrichment, and its laws |
| StampReadBack, ParsedIdentity, FallbackStatus, RecordContents | what an enriched record reads back as |

## Where the code and its comments disagree

The model follows the code.

- "Ambiguous means no match" (index.go:22-26) fails when the pinned claimant is upserted
  again, and a sole owner can be missing (processor.go:685-689). Exact conditions:
  `RouteRuns.BackendHiddenIff`, `RouteRuns.SoleOwnerVisibleIff`; runs:
  `RouteRuns.RepublishWitness`, `RouteRuns.OrphanWitness`. A republished claimant also bypasses
  the mesh-or-ingress decision: exactly when, `Resolution.DualModeIff`; a run,
  `Resolution.RepublishedClaimantBypasses`.
- Inference is meant to fire only when no Gateway of that name exists after sync
  (parent_inference.go:18-26). Its guards are read at three moments, so it can fire although
  they never held together: `ClusterRaces.GatewayArrivesBetweenReads`; exactly when they did:
  `ClusterRaces.GuardsHoldTogetherIff`, `ClusterRaces.GuardsEverHoldTogetherIff`. And it is
  cached, so it can outlive its reasons: `ClusterRaces.InferenceStandsIff`.
- The Gateway delete handler ignores tombstones, unlike the route handlers (informer.go:285-294):
  a Gateway deleted by one stays stored and blocks inference through every resync. Exactly when
  the store is right: `ClusterRaces.StoreIsExactIff`; a run: `ClusterRaces.TombstoneWitness`; the consequence:
  `ClusterResync.LeftBehindBlocksInference`.
- Policies come in "informer-discovery order" (routes.go:73-74), but per route: lists are ordered by
  when each attachment began (`PolicyRuns.ListsAreInDiscoveryOrder`), and two informers can leave two
  routes with opposite orders (`PolicyRuns.InterleavingWitness`).
- The ClusterIP conflict branch frees the claim (service_informer.go:255-264) and does not mirror
  the route index: `ServiceIPIndex.ConflictFreesWitness`.
- The static lookup claims the index's drop-on-ambiguity (routes.go:175-182) but never forgets an
  upsert: exactly when the two agree, `StaticLookup.SlotAgreesIff`.
- An inferred Service parent keeps its nil-kind reference string and is not indexed as a backend:
  `Projection.InferredEqualsExplicit`, `Projection.InferenceAddsNoBackend`.
- `formatParentRef` says it mirrors `isServiceParent` (informer.go:537-541), but a Service parent of
  another group prints as a core one; that is the only disagreement:
  `Projection.SpellingAgreesIff`.
- Fallback records do get status flags (docs/architecture.md:136-137), exactly when flags are
  configured and known: `FallbackStatus.FallbackStampsStatusIff`.
- `stripPort` drops the brackets its comment keeps (processor.go:660): `HostNames.StripPortUnbrackets`.

## Model

Results come first. The last 22 rows, from `KeyEncoding.SlashCollides` on, are readings of a
few definitions, which need no proof of their own; they pin down what the results talk about.

| member | source | states |
|---|---|---|
| `RouteRuns.OwnersAreListers` | gatewayapiprocessor/index.go:32-38 | In every reachable state the owner set of a backend key is exactly the live routes whose latest revision lists it |
| `RouteRuns.OwnerIsLastLister` | gatewayapiprocessor/index.go:84-93 | Said of events: a route owns a backend iff its last event is an upsert listing it |
| `RouteRuns.OwnersDependOnLastEvents` | gatewayapiprocessor/index.go:84-93 | Two runs that agree on the last event of every route have the same owner sets |
| `RouteRuns.ClaimIsFirstSinceRelease` | gatewayapiprocessor/index.go:28-30 | A route holds the claim on a backend iff at some event it listed the backend while unclaimed and has kept listing it ever since |
| `RouteRuns.ClaimantOwns` | gatewayapiprocessor/index.go:207-252 | The claimant of a backend is always one of its owners |
| `RouteRuns.EntryIsClaimantsLastMention` | gatewayapiprocessor/index.go:22-26 | The single-candidate entry holds attributes ra iff the claimant made the most recent mention of the backend and ra is that route's latest attributes |
| `RouteRuns.EntryPresence` | gatewayapiprocessor/index.go:241-250 | An entry is present iff a claim exists and the claimant's was the last mention |
| `RouteRuns.FastPathCoherent` | gatewayapiprocessor/index.go:60-82 | A present entry is claimed, its claimant is a live owner, and it equals that owner's stored attributes |
| `RouteRuns.BackendHiddenIff` | gatewayapiprocessor/index.go:22-26 | For any number of owners: a backend has no single-candidate entry iff whoever took the free claim and kept listing it did not make the latest mention |
| `RouteRuns.SoleOwnerVisibleIff` | gatewayapiprocessor/processor.go:685-691 | Exact condition under which a backend with one owner has an entry; the comment's claim that it always has one is false |
| `RouteRuns.SoleOwnerRepairs` | gatewayapiprocessor/index.go:171-181 | The next upsert of a sole owner always restores its claim and entry |
| `RouteRuns.SoleOwnerStays` | gatewayapiprocessor/index.go:202-252 | and they last, whatever other routes do, while none of them lists the backend |
| `RouteRuns.RepublishWitness` | gatewayapiprocessor/index.go:241-250 | A{b}, B{b}, A{b}: two owners, entry visible |
| `RouteRuns.OrphanWitness` | gatewayapiprocessor/index.go:254-289 | A{b}, B{b}, delete A: sole owner B invisible; then C{b}: visible with two owners |
| `RouteIndex.RouteIndex.constructor` | gatewayapiprocessor/index.go:49-57 | The empty index is the state after the empty run |
| `RouteIndex.RouteIndex.ReleaseStale` | gatewayapiprocessor/index.go:207-230 | Both sweeps, in any map order, drop exactly the owner's claims, entries and memberships outside the wanted set |
| `RouteIndex.RouteIndex.Reindex` | gatewayapiprocessor/index.go:202-252 | At every backend key the three backend maps make exactly the automaton's step, whatever the ref order and duplicates |
| `RouteIndex.RouteIndex.UpsertHTTPRoute` | gatewayapiprocessor/index.go:175-181 | After the call every map is what the run extended by this upsert prescribes |
| `RouteIndex.RouteIndex.UpsertGRPCRoute` | gatewayapiprocessor/index.go:188-194 | The same for a GRPCRoute key |
| `RouteIndex.RouteIndex.DeleteRoute` | gatewayapiprocessor/index.go:254-289 | After the call every map is what the run extended by this deletion prescribes |
| `RouteIndex.RouteIndex.LookupRoute` | gatewayapiprocessor/index.go:60-70 | Answers the route's latest attributes with its policies laid over, in a slice that is not index storage; in every reachable state the route events and the policy steps taken so far determine the answer |
| `RouteIndex.RouteIndex.LookupByBackendService` | gatewayapiprocessor/index.go:73-82 | Answers the single-candidate view of the run, in a slice that is not index storage |
| `RouteIndex.RouteIndex.LookupByBackendServiceWithParents` | gatewayapiprocessor/index.go:94-108 | Answers every current owner exactly once, as identity lookup shows it, in some order |
| `RouteIndex.FastPathAgreesWithIdentity` | gatewayapiprocessor/index.go:72-82 | A backend lookup returns exactly what the identity lookup of its claimant returns, policies included |
| `RouteIndex.LatestIsWellKeyed` | gatewayapiprocessor/informer.go:216-283 | When handlers upsert routes under their own key, a cached value names its own key |
| `RouteIndex.LookupShowsLivePolicies` | gatewayapiprocessor/index.go:110-120 | Of an informer's policies, once it is between two handlers and whatever the others are doing, a looked-up route carries exactly those whose live object shows acceptance and points at it; everything else is as cached |
| `RouteResync.RoundProjectsAfresh` | gatewayapiprocessor/informer.go:226-233 | A resync round gives every visited route its fresh revision and leaves the others alone |
| `RouteResync.RoundKeepsOwners` | gatewayapiprocessor/index.go:196-252 | A resync round changes no owner set |
| `RouteResync.RoundClaims` | gatewayapiprocessor/index.go:241-250 | A resync round takes no claim away; an unclaimed backend goes to the first owner visited |
| `RouteResync.ResyncConverges` | gatewayapiprocessor/index.go:175-252 | After a full round in any order from any state: owners unchanged, claim held by an owner, entry present iff the claimant came last of the owners, and then fresh |
| `RouteResync.ResyncRepairsSoleOwners` | gatewayapiprocessor/index.go:175-252 | After a full round every single-owner backend resolves to its owner's fresh attributes |
| `RouteResync.ResyncClaimsNothingNew` | gatewayapiprocessor/index.go:202-252 | A round leaves unowned backends free |
| `ClusterRuns.CacheIsLastProjection` | gatewayapiprocessor/informer.go:216-283 | The index holds a revision iff it is the projection of the route's last stored object on what that event's separate store reads found |
| `ClusterRuns.HandlersAreWellKeyed` | gatewayapiprocessor/informer.go:216-283 | The handlers only upsert a route under the key its attributes name |
| `ClusterRuns.LookupIsExact` | gatewayapiprocessor/index.go:60-70 | Over all informers, under any interleaving of their handlers: the same for a route cached from its projection |
| `ClusterRuns.InferenceIsGuarded` | gatewayapiprocessor/parent_inference.go:74-90 | A route is cached as mesh iff its first parent was an explicit Service, a waypoint Gateway at the Gateway read, or found no Gateway at that read, sync reported by the flag read, and the Service known at the Service read, in this order |
| `ClusterRuns.CachedStatusIff` | gatewayapiprocessor/informer.go:518-533 | A cached route's accepted and resolved flags are what the last Accepted and the last ResolvedRefs condition of its last stored object say, and nothing when flags are off |
| `ClusterRuns.ServiceKnownIff` | gatewayapiprocessor/service_informer.go:171-194 | A Service is known iff some event stored it and none after it withdrew it |
| `ClusterRuns.ClassStoredIff` | gatewayapiprocessor/informer.go:297-307 | A class has a controller stored iff some event stored it and no handled event about it came later |
| `ClusterRuns.SyncedIff` | gatewayapiprocessor/informer.go:143-150 | The sync flag is up exactly once the Gateway informers have reported sync |
| `ClusterRuns.NoInferenceBeforeSync` | gatewayapiprocessor/parent_inference.go:18-21 | While the Gateway informers have not synced, no cached revision is an inferred projection |
| `ClusterRaces.GatewayStoredIff` | gatewayapiprocessor/informer.go:285-294 | A Gateway is stored iff some event stored it and no handled event about it came later |
| `ClusterRaces.GatewayArrivesBetweenReads` | gatewayapiprocessor/parent_inference.go:74-90 | A run whose route is cached as inferred although no state of the run satisfies the guards |
| `ClusterRaces.GuardsHoldTogetherIff` | gatewayapiprocessor/parent_inference.go:74-90 | For every inferred projection: the guards hold together when the last is read iff no Gateway of that name has appeared since the first read |
| `ClusterRaces.GuardsEverHoldTogetherIff` | gatewayapiprocessor/parent_inference.go:74-90 | They hold together at some moment of the projection iff at some moment between its reads sync is reported, the Service is known and no Gateway of that name has appeared |
| `ClusterRaces.InferenceStandsIff` | gatewayapiprocessor/parent_inference.go:28-33 | For every cached inference: a re-projection infers again iff the Gateway is still absent and the Service still known, and stops being mesh iff the parent is a stored non-waypoint Gateway or neither |
| `ClusterRaces.SyncFlagRunsAheadOfStore` | gatewayapiprocessor/informer.go:143-150 | A route projected after sync but before its Gateway's handler ran is cached as mesh although a re-projection makes it ingress |
| `ClusterRaces.StoreIsExactIff` | gatewayapiprocessor/informer.go:285-294 | The Gateway store shows what the informers announced of a Gateway iff no ignored tombstone is the only deletion since it was last stored |
| `ClusterRaces.TombstoneWitness` | gatewayapiprocessor/informer.go:285-294 | Stored, then deleted by a tombstone: the store still holds a Gateway announced gone |
| `ClusterRuns.GatewayIdentityMatchesParent` | gatewayapiprocessor/informer.go:385-421 | Cached Gateway attribution carries the identity the first parent names and the uid and class stored under it at the Gateway read |
| `ClusterResync.ResyncIsFullRound` | gatewayapiprocessor/informer.go:46-80 | Redelivering every live route object, amid any Gateway, class and Service events, hands the index a full round |
| `ClusterResync.ResyncRefreshes` | gatewayapiprocessor/parent_inference.go:28-33 | After any such resync every live route is cached as projected during it, from what its separate reads found |
| `ClusterResync.RedeliveriesAreQuiet` | gatewayapiprocessor/informer.go:285-307 | Redelivering Gateways, classes and Services as they are held changes no store |
| `ClusterResync.ResyncProjectsAfresh` | gatewayapiprocessor/parent_inference.go:28-33 | After a resync whose store events change nothing, every live route is cached as its projection against the current stores |
| `ClusterResync.ResyncResolvesSoleOwners` | gatewayapiprocessor/parent_inference.go:28-33 | After any resync, whatever happens to the stores meanwhile, a backend listed by one live route resolves to what that route is now cached as |
| `ClusterResync.LeftBehindBlocksInference` | gatewayapiprocessor/informer.go:285-294 | A Gateway left behind by a tombstone keeps its attribution and blocks inference after every resync, whatever else the resync brings |
| `KeyEncoding.NsNameInjective` | gatewayapiprocessor/index.go:205 | The <ns>/<name> spelling separates keys whose namespaces have no slash |
| `KeyEncoding.RouteKeyInjective` | gatewayapiprocessor/routes.go:312-318 | So do the route-key spelling and the policy-target spelling |
| `PolicyRuns.OwnDecides` | gatewayapiprocessor/policy_informer.go:92-108 | Under any interleaving of locked steps, which lists hold a policy is decided by its informer's own steps |
| `PolicyRuns.AttachmentsAreExact` | gatewayapiprocessor/policy_informer.go:151-217 | However the steps of other informers' handlers fall between its own, once an informer is between two handlers a route's list holds one of its policies iff that policy is live, accepted and targets the route |
| `PolicyRuns.AttachmentsOnFields` | gatewayapiprocessor/policy_informer.go:239-346 | The same on the objects' fields: the live object has no status, or an Accepted condition that is True at the top or under some ancestor, and a target reference of the Gateway API group, kind and name, in its own namespace or the policy's |
| `PolicyRuns.ScriptOnFields` | gatewayapiprocessor/policy_informer.go:149-209 | Which targets a handler stamps and withdraws, read off the same fields of both revisions |
| `PolicyRuns.BeforeOrAfter` | gatewayapiprocessor/policy_informer.go:161-198 | While an informer is inside a handler, each of its policies shows at each route as before the event or as after it |
| `PolicyRuns.HandlerAlone` | gatewayapiprocessor/policy_informer.go:149-209 | A handler's steps, taken without interruption, do to each list what the event says, in whatever order its maps are ranged over |
| `PolicyRuns.InterleavingWitness` | gatewayapiprocessor/policy_informer.go:92-108 | Two additions naming the same two routes interleave so that the routes list the policies in opposite orders |
| `PolicyRuns.WholeHandlersWitness` | gatewayapiprocessor/policy_informer.go:151-159 | which whole handlers, in either order, never do |
| `PolicyRuns.ListsHaveNoDuplicates` | gatewayapiprocessor/index.go:122-139 | No list ever holds a policy twice |
| `PolicyRuns.ListsAreInDiscoveryOrder` | gatewayapiprocessor/routes.go:69-75 | Each list is ordered by when its current attachments began, across any removals |
| `PolicyRuns.DeleteDrainsIff` | gatewayapiprocessor/policy_informer.go:200-209 | Once a delete handler is done, among whatever others did, the policy is off every route iff the object handed over still names all routes it stamped |
| `PolicyRuns.DetachAt` | gatewayapiprocessor/index.go:145-159 | Removal closes the gap and keeps the order of everything else |
| `PolicyRuns.DetachRemoves` | gatewayapiprocessor/index.go:145-159 | On a duplicate-free list removal removes exactly the given policy |
| `PolicyTable.PolicyTable.ApplyPolicy` | gatewayapiprocessor/index.go:129-139 | One locked step: appends unless present, in spare capacity or a larger array; other lists and every snapshot handed out stay the same |
| `PolicyTable.PolicyTable.RemovePolicy` | gatewayapiprocessor/index.go:145-159 | One locked step: removes one policy by an in-place shift; other lists and every snapshot handed out stay the same; no empty list is kept |
| `PolicyTable.PolicyTable.ShiftDown` | gatewayapiprocessor/index.go:152 | The in-place append(pols[:i], pols[i+1:]...) |
| `PolicyTable.PolicyTable.Overlay` | gatewayapiprocessor/index.go:110-120 | Hands out a fresh copy that is never index storage |
| `PolicyTable.PolicyTable.PolicyAdd` | gatewayapiprocessor/policy_informer.go:149-159 | Whatever other informers do between its locked calls, the handler's own steps are the addition's: in spec order, exactly the routes the object points at, if it shows acceptance |
| `PolicyTable.PolicyAccepted` | gatewayapiprocessor/policy_informer.go:239-288 | The acceptance gate: no status, or (Accepted, True) at some position of its conditions or of some ancestor's |
| `PolicyTable.PolicyTable.WithdrawGone` | gatewayapiprocessor/policy_informer.go:186-191 | Withdraws each target that disappeared once, in any set order, other informers at work in between |
| `PolicyTable.PolicyTable.StampNew` | gatewayapiprocessor/policy_informer.go:192-197 | Stamps each target that appeared once, in any set order, other informers at work in between |
| `PolicyTable.PolicyTable.PolicyUpdate` | gatewayapiprocessor/policy_informer.go:161-198 | Under the same interference the handler's own steps are the update's: what only the old revision stamped is withdrawn, then what only the new one stamps is stamped |
| `PolicyTable.PolicyTable.PolicyDelete` | gatewayapiprocessor/policy_informer.go:200-209 | Under the same interference the handler withdraws exactly the routes the object points at, accepted or not |
| `PolicyRuns.ServesOneMore` | gatewayapiprocessor/policy_informer.go:111-147 | An informer that has taken all the steps of its next event has served one event more, so its policies are exact again |
| `PolicyTable.TargetsFromPolicy` | gatewayapiprocessor/policy_informer.go:290-346 | Collects the in-scope route keys of the target references, in spec order and no others |
| `ServiceIPIndex.HolderIsUncontested` | gatewayapiprocessor/service_informer.go:220-268 | An address is held by s iff s took it while free and since then s kept announcing it and nobody else did |
| `ServiceIPIndex.HolderIsLive` | gatewayapiprocessor/service_informer.go:244-254 | A held address is announced by the live Service holding it |
| `ServiceIPIndex.SoleAnnouncerResolves` | gatewayapiprocessor/service_informer.go:255-268 | An address announced by one live Service resolves to it after that Service's next upsert |
| `ServiceIPIndex.UniqueAddressesAreExact` | gatewayapiprocessor/service_informer.go:225-230 | While no two live Services ever announce the same address, the index is an exact view of who announces it |
| `ServiceIPIndex.ConflictFreesWitness` | gatewayapiprocessor/service_informer.go:255-264 | A, B, B resolves to B: the conflict branch frees the claim and does not mirror the route index |
| `ServiceIPIndex.AddressResolvesIff` | gatewayapiprocessor/service_informer.go:234-268 | Over runs of Service objects: an address resolves to a Service iff it took the address while free and since then exactly its events store a Service whose clusterIP, or any of whose clusterIPs, spells it |
| `ServiceIPIndex.ServiceIPSet` | gatewayapiprocessor/service_informer.go:283-304 | Collects exactly the addresses that clusterIP or an entry of clusterIPs spells |
| `ServiceIPIndex.ServiceIPIndex.Withdraw` | gatewayapiprocessor/service_informer.go:244-254 | Drops exactly the owner's addresses outside the wanted set, in any map order |
| `ServiceIPIndex.ServiceIPIndex.UpsertService` | gatewayapiprocessor/service_informer.go:234-268 | Both maps follow the run across an upsert, in any order of the wanted set |
| `ServiceIPIndex.ServiceIPIndex.DeleteService` | gatewayapiprocessor/service_informer.go:270-281 | Both maps follow the run across a delete |
| `ServiceIPIndex.ServiceIPIndex.LookupServiceByIP` | gatewayapiprocessor/service_informer.go:203-218 | Answers a Service iff the run of objects gives it the canonical address; empty and unparseable input answers nothing |
| `PodIPIndex.HoldingIsLastListing` | gatewayapiprocessor/endpointslice_informer.go:111-156 | An address resolves to slice s and Service v iff s's was the last upsert listing it, s has not been heard of since, and v was its owning Service |
| `PodIPIndex.HoldingIsCurrent` | gatewayapiprocessor/endpointslice_informer.go:147-155 | The holder is live, lists the address now, and the answer is its current owning Service |
| `PodIPIndex.ResyncConverges` | gatewayapiprocessor/endpointslice_informer.go:102-110 | After a full round each address resolves to the last slice of the round listing it |
| `PodIPIndex.ResyncIsComplete` | gatewayapiprocessor/endpointslice_informer.go:102-110 | After a full round an address resolves iff some live slice lists it |
| `PodIPIndex.LastWriterWitness` | gatewayapiprocessor/endpointslice_informer.go:158-169 | Deleting the last writer leaves an address unresolved that another live slice lists |
| `PodIPIndex.PodResolvesIff` | gatewayapiprocessor/endpointslice_informer.go:111-220 | Over runs of EndpointSlice objects: an address resolves to a Service iff the last stored IPv4 or IPv6 slice listing it through an endpoint not said to be unready is unheard of since and names that Service by its label, or else by its first named Service owner |
| `PodIPIndex.EndpointSliceIPSet` | gatewayapiprocessor/endpointslice_informer.go:171-196 | Collects exactly the addresses of endpoints that are ready, or do not say, of IP-typed slices |
| `PodIPIndex.PodIPIndex.Withdraw` | gatewayapiprocessor/endpointslice_informer.go:134-143 | Drops exactly the slice's addresses outside the wanted set, in any map order |
| `PodIPIndex.PodIPIndex.UpsertEndpointSlice` | gatewayapiprocessor/endpointslice_informer.go:111-156 | Both maps follow the run across an upsert, including slices that lost their owner |
| `PodIPIndex.PodIPIndex.DeleteEndpointSlice` | gatewayapiprocessor/endpointslice_informer.go:158-169 | Both maps follow the run across a delete |
| `PodIPIndex.PodIPIndex.LookupPodIP` | gatewayapiprocessor/endpointslice_informer.go:78-93 | Answers a Service iff the run of objects resolves the canonical address to it |
| `Projection.ParentRefSpelling` | gatewayapiprocessor/informer.go:535-561 | A reference prints as a core Service iff its kind is Service; a nil-kind core one prints as a Gateway |
| `Projection.SpellingAgreesIff` | gatewayapiprocessor/informer.go:535-561 | Printing as a core Service and testing as one agree iff the reference is not a Service of another API group |
| `Projection.RuleRefsIff` | gatewayapiprocessor/index.go:305-321 | Membership in one rule's refs: core Service backends with namespace defaulting |
| `Projection.RulesRefsIff` | gatewayapiprocessor/index.go:303-321 | Membership in all rules' refs |
| `Projection.ParentRefsIff` | gatewayapiprocessor/index.go:322-335 | Membership in the parent refs: explicit Service parents with namespace defaulting |
| `Projection.BackendRefsFrom` | gatewayapiprocessor/index.go:299-374 | The nested collection loops produce the specified list, for both route kinds |
| `Projection.ParentInferrer.MaybeInferServiceParent` | gatewayapiprocessor/parent_inference.go:69-90 | Decides by the flag at its read and the Service names at theirs, and counts exactly the inferences that fire |
| `Projection.Draft.ApplyParentRef` | gatewayapiprocessor/informer.go:369-421 | Fills the draft as the projection of the first parent prescribes on what the separate reads find; counts one inference iff it is inferred |
| `Projection.RouteToAttrs` | gatewayapiprocessor/informer.go:309-350 | The whole projection, shared by both route kinds, each store read at its own moment |
| `Projection.StatusFlags` | gatewayapiprocessor/informer.go:518-533 | The loop over parents and conditions ends with what the last condition of each kind says |
| `Projection.StatusIff` | gatewayapiprocessor/informer.go:518-533 | A projected flag is exactly what the last condition of its kind says, and absent iff there is none or flags are off |
| `ProjectedFields.WaypointFields` | gatewayapiprocessor/config.go:182-206 | A stored Gateway parent is a waypoint, of the implementation its class name spells, iff its class is configured |
| `ProjectedFields.RuleNamesByPosition` | gatewayapiprocessor/informer.go:464-498 | Rule names are listed by position, and not at all when every rule is unnamed |
| `ProjectedFields.RefsIff` | gatewayapiprocessor/index.go:299-335 | A route is indexed under a Service iff a rule's backend or a parent names it, group, kind and namespace defaulting included |
| `StaticLookup.StaticLookup.PutBackend` | gatewayapiprocessor/routes.go:175-197 | Each backend slot makes its specified step |
| `StaticLookup.FixtureCell` | gatewayapiprocessor/index.go:202-252 | For distinct routes upserted once, owners are the mentioners, the claim is the first, the entry is present iff there is one |
| `StaticLookup.FixtureSimulatesIndex` | gatewayapiprocessor/routes.go:175-182 | For distinct routes upserted once, the fixture and the index agree on single-candidate lookups and, up to order, on candidates |
| `StaticLookup.SoleMentionEntry` | gatewayapiprocessor/index.go:202-252 | A backend mentioned once has an entry in the index iff that mention is its route's last event |
| `StaticLookup.SlotAgreesIff` | gatewayapiprocessor/routes.go:175-182 | For any upserts, repeated or not: fixture and index agree on a single-candidate lookup iff a sole mention is its route's last event, or there are none or several and no claimant made the latest |
| `StaticLookup.ReupsertSeparates` | gatewayapiprocessor/routes.go:175-182 | Re-upserting the claimant separates the sticky fixture from the index |
| `EnvoyRoute.ParseAcceptsIff` | gatewayapiprocessor/parser/envoy.go:65-90 | The default format accepts exactly prefix, two non-empty slash-free segments and a tail not extending the second, and reads off those segments |
| `EnvoyRoute.ParsePrinted` | gatewayapiprocessor/factory.go:46 | Printing a route reference with optional rule and match and parsing it back returns it, with -1 for absent indices and those beyond a 64-bit int |
| `EnvoyRoute.PrintedTail` | gatewayapiprocessor/parser/envoy.go:91-106 | Printed indices are captured digit for digit |
| `Text.DecimalRoundTrip` | gatewayapiprocessor/parser/envoy.go:101-105 | Decimal digits read back as the number printed |
| `HostNames.SplitAddressIff` | gatewayapiprocessor/processor.go:766-797 | The splitter answers (ns, svc) iff those are the first two dot-free labels of its input |
| `HostNames.SplitAddressScan` | gatewayapiprocessor/processor.go:769-797 | The two scanning loops compute the splitter |
| `HostNames.StripPortDropsPort` | gatewayapiprocessor/processor.go:655-675 | A port is dropped from any unbracketed colon-free host, and such a host alone is unchanged |
| `HostNames.StripPortIff` | gatewayapiprocessor/processor.go:655-675 | Exactly which host each value is stripped to: brackets, raw IPv6, one colon, none |
| `HostNames.StripPortUnbrackets` | gatewayapiprocessor/processor.go:655-675 | A bracketed literal comes back without its brackets, which the code does although its comment keeps them |
| `HostNames.ServiceAddressRoundTrip` | gatewayapiprocessor/processor.go:659-675 | Any in-cluster spelling of a Service, with or without suffix and port, decodes to that Service |
| `Resolution.OrderIsIrrelevant` | gatewayapiprocessor/processor.go:703-747 | Disambiguation does not depend on the order in which owners are ranged over |
| `Resolution.DisambiguateScan` | gatewayapiprocessor/processor.go:715-747 | The bucket loop computes the disambiguator |
| `Resolution.DisambiguatesPairs` | gatewayapiprocessor/processor.go:703-747 | It answers exactly on one mesh and one ingress candidate |
| `Resolution.ResolveByBackend` | gatewayapiprocessor/processor.go:692-701 | The resolver computes the specified answer for the index states its two lookups find and every owner order |
| `Resolution.ResolveIsSound` | gatewayapiprocessor/processor.go:677-701 | What a backend resolves to was live and listed it in a state one of the two reads saw |
| `Resolution.DualModeIff` | gatewayapiprocessor/processor.go:703-714 | A dual-mode backend resolves as the disambiguator decides iff the fast path is empty or its claimant is the choice |
| `Resolution.RepublishedClaimantBypasses` | gatewayapiprocessor/processor.go:703-714 | Ingress A{b}, mesh B{b}, A{b}: the disambiguator picks B for a span in its namespace, the resolver answers A |
| `Resolution.ResolvesIff` | gatewayapiprocessor/processor.go:685-747 | For any owners and events between the two reads: a backend resolves iff some route held its claim and mentioned it last at the first, or its owners at the second are exactly one mesh and one ingress route |
| `Resolution.SoleOwnerResolvesIff` | gatewayapiprocessor/processor.go:685-701 | A single-owner backend resolves iff its owner holds the claim and mentioned it last |
| `Resolution.ScanSources` | gatewayapiprocessor/processor.go:522-567 | The loop over source attributes stops at the first that resolves |
| `SourceAddresses.NamesIff` | gatewayapiprocessor/processor.go:522-562 | Exactly which Service a source attribute names: URL keys by their URL host, others without port; an address literal by the ClusterIP index and then the pod index; a name by its first two labels, or bare in the workload's namespace |
| `SourceAddresses.LiteralNamesHolder` | gatewayapiprocessor/processor.go:531-545 | However spelled, an address literal names the Service the indexes hold it for, and never the pair its dotted parts would make |
| `SourceAddresses.ScanIff` | gatewayapiprocessor/processor.go:522-567 | The fallback settles on a route iff the first source attribute that leads anywhere leads to it |
| `Resolution.ScanIsFirstToResolve` | gatewayapiprocessor/config.go:114-119 | The winner is the first configured attribute that resolves, and conversely |
| `Resolution.FallbackIsSound` | gatewayapiprocessor/processor.go:498-589 | Under any interleaving of informer events with the separate reads, the stamped route was live, listed the decoded backend, and looked exactly so in a state a read saw |
| `Resolution.AddressEvidence` | gatewayapiprocessor/routes.go:283-300 | An address resolves only to a Service announcing it or owning a live slice that lists it |
| `Resolution.DnsNameNamesService` | gatewayapiprocessor/processor.go:547-562 | A Service's DNS spelling names that Service unless it is an IP literal |
| `Resolution.WinnerIsIdentityLookup` | gatewayapiprocessor/processor.go:568-589 | On a fixed state, identity lookup of the winner returns the winner |
| `Enrichment.EffectiveSourceAttrs` | gatewayapiprocessor/config.go:216-241 | The list-and-seen-set loop computes the effective keys |
| `Enrichment.SourceKeysAreConfigured` | gatewayapiprocessor/config.go:216-241 | The effective keys are the non-empty configured ones, the legacy key last |
| `Enrichment.ExtendAllIsDistinct` | gatewayapiprocessor/config.go:226-235 | Deduplication keeps each non-empty key once |
| `Enrichment.ExtendAllKeepsOrder` | gatewayapiprocessor/config.go:216-219 | and keeps the order of first mention |
| `Enrichment.StampRouteAttrs` | gatewayapiprocessor/processor.go:351-458 | Stamping applies exactly the route's table of guarded puts |
| `Enrichment.StampWaypoint` | gatewayapiprocessor/processor.go:434-455 | The projected waypoint, else the live label of the parent Service |
| `Enrichment.StampPolicyAttrs` | gatewayapiprocessor/processor.go:460-489 | Builds four parallel arrays and the target kind |
| `Enrichment.MaybeStripMetrics` | gatewayapiprocessor/processor.go:591-600 | Removes exactly the excluded keys, on metrics only |
| `Enrichment.ApplyBackendRefFallback` | gatewayapiprocessor/processor.go:510-589 | Stamps the first resolving attribute's route, or leaves the record alone |
| `Enrichment.Enrich` | gatewayapiprocessor/processor.go:252-293 | The enrichment path turns the record into its specified enriched form |
| `RecordContents.ParsedIdentityOnRecord` | gatewayapiprocessor/processor.go:297-312 | A record whose parser names a route of either kind shows its name and namespace under the keys of that kind, an HTTPRoute's indices, and gains no other identity key |
| `RecordContents.FallbackIdentityOnRecord` | gatewayapiprocessor/processor.go:571-586 | So does a fallback record, of the winner of either kind, without any index |
| `RecordContents.AddressIsStamped` | gatewayapiprocessor/processor.go:531-545 | A literal address in a source attribute, when its Service resolves, ends up as that route's identity on the record |
| `RecordContents.RouteOnRecord` | gatewayapiprocessor/processor.go:317-458 | A record whose parser names a stored route shows every attribute of it over what the record held |
| `RecordContents.WinnerOnRecord` | gatewayapiprocessor/processor.go:571-588 | and a fallback record every attribute of the winner |
| `RecordContents.RuleNameOnRecord` | gatewayapiprocessor/processor.go:335-350 | The matched rule's name is stamped by position |
| `RecordContents.ParserOnRecord` | gatewayapiprocessor/processor.go:280-282 | The parser is named on every matched record, the fallback as one |
| `RecordContents.PassthroughStops` | gatewayapiprocessor/processor.go:274-289 | A result without namespace or name stamps the raw name and the parser, and nothing else |
| `RecordContents.RecordShadowsResource` | gatewayapiprocessor/processor.go:602-620 | Where both have an attribute only the record's counts |
| `EnrichmentLaws.NeverBothKinds` | gatewayapiprocessor/processor.go:295-312 | One enrichment never adds keys of both route kinds, a configured passthrough key aside |
| `EnrichmentLaws.FallbackEqualsDirect` | gatewayapiprocessor/processor.go:571-588 | On a fixed reachable state a fallback record is stamped exactly like a record whose parser named the winner without a rule index |
| `FallbackStatus.FallbackStampsStatusIff` | docs/architecture.md:129-137 | The fallback stamps each status flag iff flags are configured and the winner's is known, contrary to the document; the record then shows it and otherwise its former value |
| `EnrichmentLaws.Untouched` | gatewayapiprocessor/processor.go:252-293 | Enrichment leaves alone what it neither stamps nor strips |
| `EnrichmentLaws.EnrichIsIdempotent` | gatewayapiprocessor/processor.go:252-293 | Enriching twice is enriching once, for a fixed index and any owner orders, when that record's enrichment neither stamps nor strips anything it reads |
| `EnrichmentLaws.DefaultsAreApart` | gatewayapiprocessor/factory.go:42-116 | The default configuration reads no key it stamps or strips |
| `EnrichmentLaws.DefaultsAreIdempotent` | gatewayapiprocessor/factory.go:42-116 | Under the default configuration enrichment is idempotent on every record and signal |
| `EnrichmentLaws.AddedAreStamped` | gatewayapiprocessor/attrs.go:6-81 | Nothing outside the contract's keys and the configured passthrough key is ever added |
| `ParsedIdentity.EnvoyNameIsStamped` | gatewayapiprocessor/processor.go:290-312 | On any signal, a record whose parsed route name is a printed route reference ends up showing exactly that namespace, name, rule and match under every key its signal keeps, whatever the later lookups find |
| `ParsedIdentity.IdentitySurvives` | gatewayapiprocessor/processor.go:295-312 | No metadata stamped after the identity overwrites it; only a key configured away from metrics is stripped |
| `StampReadBack.IdentityReadsBack` | gatewayapiprocessor/processor.go:354-376 | On any record, uid, parent reference and parent kind read back under the keys of the route's kind, empty ones leaving the former value |
| `StampReadBack.StatusReadsBack` | gatewayapiprocessor/processor.go:377-390 | On any record, status flags read back when configured and known, and are otherwise left as they were |
| `StampReadBack.GatewayReadsBack` | gatewayapiprocessor/processor.go:391-416 | On any record, mode, Gateway and class attribution read back field by field, empty ones leaving the former value |
| `StampReadBack.MeshReadsBack` | gatewayapiprocessor/processor.go:418-432 | On any record, parent Service, positive port and role read back, else the former value |
| `StampReadBack.WaypointReadsBack` | gatewayapiprocessor/processor.go:434-455 | On any record, the projected waypoint reads back, else the live label; without either a former waypoint survives |
| `StampReadBack.PoliciesReadBack` | gatewayapiprocessor/processor.go:460-489 | On any record, a policy list reads back whole and in order from the four parallel arrays; an empty one leaves former arrays in place |
| `KeyEncoding.SlashCollides` | gatewayapiprocessor/routes.go:312-318 | A slash in a namespace makes two keys collide |
| `PolicyRuns.LastKnownObjectSuffices` | gatewayapiprocessor/policy_informer.go:132-145 | Handing a delete the last known object of a tombstone always meets the protocol that keeps attachments exact |
| `Projection.MeshIff` | gatewayapiprocessor/informer.go:352-421 | A route is mesh iff its first parent is an explicit Service, a waypoint Gateway, or inferred |
| `Projection.RoleIff` | gatewayapiprocessor/informer.go:439-453 | A route has a role iff its first parent is a Service and roles are on; producer iff the namespaces agree |
| `Projection.GatewayAttribution` | gatewayapiprocessor/informer.go:400-421 | Gateway attribution names the first parent, with the stored Gateway's uid and class, and waypoint identity when present |
| `Projection.DanglingExplicitParentIsIngress` | gatewayapiprocessor/parent_inference.go:92-104 | An explicit non-Service parent with no stored Gateway is never mesh |
| `Projection.InferredEqualsExplicit` | gatewayapiprocessor/informer.go:423-437 | Inference yields the attributes of an explicit kind Service in every field but the parent-reference string |
| `Projection.InferenceAddsNoBackend` | gatewayapiprocessor/index.go:322-335 | An inferred Service parent is not added to the indexed backends; an explicit one is |
| `Resolution.DisambiguateByNamespace` | gatewayapiprocessor/processor.go:711-714 | Disambiguation answers mesh iff the span runs in the mesh parent Service's namespace, ingress otherwise |
| `Resolution.BareNameNamesService` | gatewayapiprocessor/processor.go:548-561 | A bare host name is qualified by the workload's namespace |
| `EnrichmentLaws.MetricsAreStrippedTraces` | gatewayapiprocessor/processor.go:591-600 | Metrics enrichment is trace enrichment minus the excluded keys when something matched, and nothing otherwise |
| `ProjectedFields.OwnFields` | gatewayapiprocessor/informer.go:313-347 | A projection carries the kind, name, namespace and uid of its object |
| `ProjectedFields.ParentKindField` | gatewayapiprocessor/informer.go:455-462 | The parent kind is the reference's own, Gateway when it gives none, Service when inferred |
| `RecordContents.ResourceIsRead` | gatewayapiprocessor/processor.go:602-620 | A resource attribute the record lacks counts as the record's |
| `RecordContents.TextIsRead` | gatewayapiprocessor/processor.go:611-620 | Text attributes reach the parsers and the decoder as they are |
| `Attributes.RouteAttrSpelling` | gatewayapiprocessor/attrs.go:6-81 | How the keys of a route kind read |
| `ProjectedFields.ServiceParentFields` | gatewayapiprocessor/informer.go:429-437 | A route whose first parent is a Service, named or inferred, is mesh with that Service's name, namespace and port |
| `ProjectedFields.GatewayParentFields` | gatewayapiprocessor/informer.go:400-411 | A stored Gateway parent gives its identity, the section as listener, its class and the controller stored for it |
| `ProjectedFields.UnresolvedParentFields` | gatewayapiprocessor/informer.go:388-399 | Any other parent leaves an ingress route with nothing of a Gateway or a Service |
| `ProjectedFields.ParentRefField` | gatewayapiprocessor/informer.go:535-561 | The printed reference, group by group |
| `RecordContents.NothingMatches` | gatewayapiprocessor/processor.go:266-271 | No parser match and no fallback leave the record alone |
| `RecordContents.MetricsLoseExcluded` | gatewayapiprocessor/processor.go:591-600 | A matched metric record lacks exactly the configured keys |

## Left out

- client-go plumbing, REST configuration, sync timeouts and resync timers: only the event protocol (add, update with the previous object, delete with the last known object) is kept.
- Collector wiring, traversal of traces, logs and metrics, metric-type dispatch and the factory: one record and one enrichment are modelled.
- IP canonicalisation, URL parsing and the rendering of non-string attribute values are parameters (`ServiceIPIndex.Canon`, `Resolution.Libs`, `Enrichment.Env`).
- The parser chain beyond the default Envoy format is an arbitrary function from the attribute view to an optional result; general regular expressions and controller patterns are not modelled.
- Decoding of unstructured policy objects: the model starts from a datatype with an optional status, condition lists and target references.
- `Config.Validate`, logging and the self-telemetry export beyond counting inferences.
- The use-waypoint label index is a plain map in a snapshot: one put or delete per Service event, nothing to relate.
- RWMutex internals: a locked method is one step; only interleaving between steps is covered.
- ClusterResync.Resync: no route is created, changed or deleted meanwhile; a route that is, is covered by `ClusterRuns.CacheIsLastProjection`, and backends by `RouteRuns.SoleOwnerStays`.
- EnrichmentLaws.EnrichIsIdempotent: one direction, the disjointness conditions suffice but are not necessary, since a record whose source attribute is stripped may simply stop matching.
- EnrichmentLaws.FallbackEqualsDirect: for winners with a non-empty namespace and name, since a parsed result without them stops before the lookup.
- PolicyRuns.AttachmentsAreExact: assumes what a shared informer guarantees of its events (`PolicyRuns.Follows`), that it runs one handler at a time, and that group, kind, namespace and name belong to one informer.
