# GPUStack control plane: verified model

A Dafny model of the parts of the repository whose correctness depends on more than one
function: protocols between processes, replicas and retries, transformations that must
preserve something, and the SQL filters that have to agree with row checks. `dafny verify
dfyconfig.toml` checks everything.

| module | models |
|---|---|
| `Digest` | the stored API key digest `sha256$salt$hash`, its parser, and the shortened gateway form |
| `Backfill` | concurrent upgrade of keys from argon2 to the stored digest: any number of processes, tasks and cached rows |
| `Auth` | the same code as methods over the module-level sets and the row, proved equal to the steps of `Backfill` |
| `Names` | namespace names, volume type names and API keys, printed and parsed |
| `Json` | JSON values and the merge patch of RFC 7386 |
| `CrdProtocol` | create, upsert, patch and delete of one custom resource by any number of racing clients |
| `ClusterOps` | those operations as methods against a server others change between any two calls |
| `WatchCache` | the watch-fed client cache: its runs, its agreement with the server's table, its readers |
| `ExtAuth` | the external-auth WasmPlugin resource with its two writers |
| `Lease` | idempotency keys and the provisioning steps: read, create, commit, with crashes, retries and writes by others in between |
| `Shuihua` | creating, polling and paging through VMs |
| `Placeholders` | `{{name}}` substitution in a GPU instance spec |
| `Tenant` | which principal a request acts as, and what it lists, sees, creates and writes |
| `BusMetrics` | event counters across departing subscribers, and the metrics collector |
| `Subscriber` | the bounded, coalescing queue of one bus subscriber |
| `QueueOrder` | what enters that queue, what comes out of it, and in which order |
| `Delivery` | a commit on its way through subscriber and stream into a client's cache, end to end |
| `Streaming` | the streaming response as ASGI messages |
| `Brackets` | the bracket scans and splices of the UI build scripts |
| `Sql` | three-valued logic of WHERE clauses |
| `Text` | options, split/join, decimal numerals |

**Form.** A protocol is a state machine: `Next` is one step, `Run` any sequence of steps, and
the theorems quantify over all sequences. A class or loop of the source is a class or loop
here, with a contract that ties the new state to a function of the old one; the theorems are
about those functions.

**Assumptions.** SHA-256 is an arbitrary function from text to 32 bytes; where a proof needs
that it tells two inputs apart, that is a premise. argon2 is the axiom that a row's permanent
hash accepts the key's own secret and nothing else. Text stands for its UTF-8 encoding.
`int()`, `\w`, a charset's encoder and the clock are parameters. Lock operations and sends do
not fail. asyncio code runs without interruption between two suspension points; the
subscriber's lock is never held across one, so taking it is not one.

## Where the code does not do what it or its documentation says

Each is proved as a lemma with the exact condition, a counterexample, or both.

- The in-flight set of the backfill is not always the set of running tasks: a task cancelled
  before its first step never reaches its `finally`. It is exactly that set in every run without
  such a cancellation (`Backfill.StrandedIffCancelledEarly`, `InFlightExact`, `StrandingHappens`).
  The only thing that cancels these tasks is the shutdown of the server
  (`gpustack/gpustack/utils/process.py:43-45`), so nothing but the shutdown sees the difference.
- "At most one lease per attempt" fails if, from the moment a reconcile has read a worker at the
  create step until the row records the lease, another component renames the worker or writes its
  row in another second and leaves it in provisioning. Then one crash is enough for a second lease;
  and no other write can lead to one (`Lease.SafeIffUndisturbed`, `AtMostOneLease`). Without
  such a write a crash costs nothing: the next reconcile records the lease there is (`CrashRecovers`).
- `bus_events_total` loses what a subscriber counts after it was folded (`BusMetrics.TotalIsSumLessLost`),
  and a scrape can report less than the one before. The exact condition is
  `BusMetrics.SecondReportsLess`; it takes a subscriber that the earlier scrape listed and that was
  folded before that scrape's seed, or before its count was read, or that is between removal and
  folding when the later scrape copies (`NeverLessUnlessUnsubscribed`, `ScrapeCanDrop`).
- A client's cache can keep a row that the server deleted: with a full queue the delete can get
  into the queue, by its publish or because its task is woken first, while an event of the same
  row is still parked; unless that task is cancelled, exactly then it is lost
  (`Delivery.DeleteArrivesIff`, `DeleteGoneIff`, and `OvertakingHappens` for both ways). In the same
  way a creation that gets in behind an update leaves the cache with the row as it was created
  (`Delivery.RowAgreesIff`).
- A revoked key can come back into the gateway's tables, by a reconcile that computed them before
  the revocation and is still retrying; exactly then (`ExtAuth.StaysOutIff`). One reconciler is
  enough, by the pass it had computed before the revocation (`ExtAuth.OneReconcilerResurrects`);
  its next pass, computed afterwards, ends that as soon as it gets through, whether it writes or
  finds nothing to write (`OutForGoodIff`, `ThroughRevokes`, `RevokedForGood`).
- `assert_resource_visible` is documented to mirror the list filter; it also lets through rows
  whose owner is NULL (`Tenant.ListedAgainstVisible`).
- A cancelled stream ends without its final body message (`Streaming.Response.CompleteUnlessCutOff`).
- The lazy-expression scan runs past the expression when it is not a call, and then can unbalance
  a balanced bundle (`Brackets.BindComponents`, `BareBindingBreaks`).
- The test for a generated key ends in `$`, which in Python also matches before one trailing
  newline, so a generated key with one behind it is eligible (`Digest.EligibleIs`,
  `NewlineIsEligible`), and so is an Org name with one, reserved names included
  (`Names.OrgNameAcceptedIs`). And a
  stored hash with a non-ASCII character counts as usable but raises on comparison
  (`Digest.VerifyRaises`, `VerifyCanRaise`); no row that `Backfill` reaches holds one.

## Model

| member | source | states |
|---|---|---|
| Backfill.RunInv | gpustack/gpustack/api/auth.py:385-482 | Every state of every run (any processes, stale cached rows, failing or cancelled tasks, interleaved at suspension points) keeps: a row holds its initial value and at most one correct digest after it; every pending write carries a correct digest and expects an unusable value; in-flight ids are the live tasks' and the stranded ones, one task each. |
| Backfill.FastRefinesSlow | gpustack/gpustack/api/auth.py:524-552 | On every value a row ever held in any run, the decision equals the argon2 decision, up to a SHA-256 collision under the stored salt, and no exception escapes. |
| Backfill.AtMostOneWrite | gpustack/gpustack/api/auth.py:459-471 | Per key at most one backfill write takes effect over a whole run; a usable digest is the last value of its row; a row without an access key is never written. |
| Backfill.InFlightExact | gpustack/gpustack/api/auth.py:413-429 | The in-flight set is exactly the live tasks' ids plus the stranded ids, so it equals the live ids iff nothing is stranded; no key has two live tasks in a process. |
| Backfill.StrandedByEarlyCancel | gpustack/gpustack/api/auth.py:436-482 | An id becomes stranded exactly by cancelling its task before the first step. |
| Backfill.StrandedIffCancelledEarly | gpustack/gpustack/api/auth.py:413-429 | Over every run a process has stranded ids, and so an in-flight set that is not its live tasks, iff one of its tasks was cancelled before its first step. |
| Backfill.StrandingHappens | gpustack/gpustack/api/auth.py:413-429 | A concrete run that strands a key. |
| Backfill.WrittenMeansUsable | gpustack/gpustack/api/auth.py:459-476 | Once any task of a key has executed its update, whichever way the comparison went, the row holds a usable digest. |
| Backfill.TaskRuns | gpustack/gpustack/api/auth.py:436-482 | From any reachable state a scheduled task can run through: then it is gone, its id is out of the in-flight set and the row has the task's digest if it still holds what the task expects, and else what it held; if it fails once begun, the row is as it was. |
| Backfill.UpgradeHappens | gpustack/gpustack/api/auth.py:385-482 | From any reachable state, once a process without a task for the key has authenticated its owner against an unusable digest and the task has run through, the row holds the digest of the owner's secret, if the secret is eligible. |
| Auth.KeyTable.UpdateWhere | gpustack/gpustack/api/auth.py:460-471 | The guarded UPDATE in SQL's three-valued logic, IS NULL for a NULL expectation and equality, unknown of NULL, otherwise, changes exactly the row and the cases of the protocol's compare-and-set. |
| Auth.AuthProcess.ScheduleBackfill | gpustack/gpustack/api/auth.py:385-433 | Updating the module-level sets is the scheduling step of the protocol. |
| Auth.AuthProcess.GetUserFromApiToken | gpustack/gpustack/api/auth.py:485-562 | The lookup loop, expiry, fast and slow branch and scheduling give the verdict stated without them, change the process exactly by one authentication step, and mark exactly a key with an unusable digest as warned about. |
| Auth.AuthProcess.RunBackfill | gpustack/gpustack/api/auth.py:436-482 | The coroutine from first step to done callback, with other processes' compare-and-sets of the row before its update, run through, cancelled before its first step, or struck before or after the commit: the row, the in-flight set and the tasks afterwards. |
| Auth.GrantedIffOwner | gpustack/gpustack/api/auth.py:485-562 | In every reachable state, for every token, on every cached copy: no error; granted is only the user of the row looked up, while it has no expiry or one after now, with that row's secret or a hash collision under a usable digest's salt; and in that time that secret is always granted to an existing user. |
| Auth.OwnersTokenIsGranted | gpustack/gpustack/api/auth.py:485-562 | The printed token of a key without an expiry, or before it, is parsed, looked up and granted to its owner in every reachable state. |
| Auth.LookedUp | gpustack/gpustack/api/auth.py:489-504 | Which row is looked up: the access key's; for one of 32 characters without a row, and always for a legacy worker's UUID, the one with an empty access key. |
| Auth.HyphenUuidIs | gpustack/gpustack/api/auth.py:365-374 | The UUID form is five groups of 8, 4, 4, 4 and 12 hex digits of either case, joined by hyphens. |
| Digest.ParsePrint | gpustack/gpustack/security.py:205-220 | A stored value parses to a salt and a hash iff it is their printed form and both are non-empty and free of separators. |
| Digest.HexRoundTrip | gpustack/gpustack/security.py:160-172 | fromhex undoes hex on all byte strings. |
| Digest.Base64RoundTrip | gpustack/gpustack/security.py:160-172 | The unpadded URL-safe encoding (section 5 of RFC 4648) of n bytes has ceil(4n/3) characters, no separator, and decodes to the bytes. |
| Digest.NewVerifies | gpustack/gpustack/security.py:116-139 | A generated digest is "sha256", the salt in hex and the hash of salt and secret in hex, in that order; it is usable, checking against it never raises, and it accepts exactly the secrets with the same salted hash. |
| Digest.VerifyRaises | gpustack/gpustack/security.py:189-202 | The check raises iff the digest is usable and its hash is not ASCII. |
| Digest.NewlineIsEligible | gpustack/gpustack/security.py:84-139 | A generated secret with a newline behind it is eligible and gets a digest. |
| Digest.EligibleIs | gpustack/gpustack/security.py:76-114 | Eligible under an access key is exactly what generate_secret_key can return, the hex of some 16 bytes, and that with a newline behind it; a custom secret iff the flag says so; under an empty access key nothing. |
| Digest.ShortenInjective | gpustack/gpustack/security.py:142-172 | The shortened hash has 22 characters, and two agree iff the first 16 hash bytes do. |
| Digest.GatewayShrinks | gpustack/gpustack/security.py:142-172 | Every generated digest has 104 characters, its gateway form, "s128", the same salt and the shortened hash, 60, and the gateway form never parses as a digest. |
| Digest.GatewayAcceptsWhatVerifies | gpustack/gpustack/security.py:142-202 | The truncated comparison accepts exactly the secrets agreeing on 16 hash bytes, in particular whatever the server's own check accepts. |
| Digest.GatewayFormsAgree | gpustack/gpustack/security.py:142-172 | Two digests under one salt share a gateway form iff their first 16 hash bytes agree. |
| Names.NamespaceRoundTrip | gpustack/gpustack/gpu_instances/cluster_apis_util.py:156-190 | Printing and parsing a namespace name are inverse, both ways, on all texts. |
| Names.NamespacesClash | gpustack/gpustack/gpu_instances/cluster_apis_util.py:130-167 | For principals of any names: which pairs share a namespace, exactly. |
| Names.NamespacesDistinct | gpustack/gpustack/schemas/organizations.py:33-72 | Among users and Orgs whose names the validator accepted, distinct principals have distinct namespaces. |
| Names.OrgNameAcceptedIs | gpustack/gpustack/schemas/organizations.py:33-72 | The names an Org can have, told without the patterns: lower-case letters, digits and hyphens, a letter first, no hyphen last, not "user-" and digits, none of four reserved names; and any of these, reserved or not, with one newline behind it. |
| Names.NamesAre | gpustack/gpustack/gpu_instances/cluster_apis_util.py:156-231 | The printed namespace names, volume type names and keys, spelt out. |
| Names.VolumeTypeRoundTrip | gpustack/gpustack/gpu_instances/cluster_apis_util.py:193-231 | Parsing undoes printing a volume type name iff the principal's identifier has no dot; the name may hold any. |
| Names.VolumeTypeReprint | gpustack/gpustack/gpu_instances/cluster_apis_util.py:193-231 | Whatever parses as a volume type name prints back unchanged. |
| Names.KeyRoundTrip | gpustack/gpustack/security.py:250-296 | A printed API key parses to its halves iff the access key has no underscore; the secret may hold any. |
| Names.KeyReprint | gpustack/gpustack/security.py:250-257 | Whatever parses as an API key prints back unchanged. |
| Json.MergeIdempotent | gpustack/gpustack/gpu_instances/cluster_apis.py:453-494 | Applying a merge patch twice is applying it once, for every target and patch. |
| CrdProtocol.EnvelopeKeeps | gpustack/gpustack/gpu_instances/cluster_apis.py:287-301 | The envelope keeps the caller's spec, every metadata field but the namespace and every other field; version and kind are the resource's, the namespace that of its scope. |
| CrdProtocol.RunInv | gpustack/gpustack/gpu_instances/cluster_apis.py:303-531 | For any clients in any interleaving, with an operator writing too, every client is at a call its operation makes, and its result, conflict and namespace facts refer to the server's history: a delete's answer to a removal or an absence during the call, a patch's object to the merge of its spec into what was held just before. |
| CrdProtocol.AnswerIsTrue | gpustack/gpustack/gpu_instances/cluster_apis.py:303-531 | Per turn of any run, told on the history alone: a delete answers true iff it appended one removal directly behind an object, false iff there was none and it wrote nothing; a patch returns and appends the merge of its spec into the object held, or None iff there was none; a create appends its envelope over nothing, or writes nothing; an upsert does as either; an error writes nothing; only a create or upsert makes a namespace, and only an Org one. |
| CrdProtocol.ReturnsWhatWasHeld | gpustack/gpustack/gpu_instances/cluster_apis.py:303-494 | Every object a call returns is a value the server held during that call, deleters or not. |
| CrdProtocol.ConflictOnlyIfVanished | gpustack/gpustack/gpu_instances/cluster_apis.py:346-363 | A 409 escapes a tolerant create or an upsert only if the object vanished after the 409; and none of them fails for want of its Org namespace. |
| CrdProtocol.CreateNeverModifies | gpustack/gpustack/gpu_instances/cluster_apis.py:303-363 | No call of a create changes or removes an existing object; all it ever writes is its own envelope over nothing. |
| CrdProtocol.WithoutDeleters | gpustack/gpustack/gpu_instances/cluster_apis.py:303-451 | Without deleters the object never goes away once there, and somebody created it iff it is there, one client only. |
| CrdProtocol.ExactlyOneCreates | gpustack/gpustack/gpu_instances/cluster_apis.py:303-451 | N creates and upserts racing on one absent name: at most one creates it, no tolerant one raises, and exactly one has created it as soon as any has finished. |
| CrdProtocol.UpsertEnds | gpustack/gpustack/gpu_instances/cluster_apis.py:365-451 | The race semantics of upsert: it returns what the server then holds, with its own spec merged in or created; or, after a 409, the concurrent writer's object with nothing of its own applied. |
| CrdProtocol.StopThenStart | gpustack/gpustack/gpu_instances/cluster_apis.py:798-822 | Start clears stop whatever the re-applied spec says; a stop and a bare start leave every other field alone, inside the spec and outside. |
| CrdProtocol.PatchedSpec | gpustack/gpustack/gpu_instances/cluster_apis.py:453-494 | A spec patch's effect on each field inside the spec, and its none outside. |
| ClusterOps.EnsureOrgNamespace | gpustack/gpustack/gpu_instances/cluster_apis.py:533-581 | Read, then create, of the namespace leaves the rest of the operation with exactly the run the protocol prescribes; the namespace is there afterwards. |
| ClusterOps.CreateObject | gpustack/gpustack/gpu_instances/cluster_apis.py:303-363 | _create with its branches on 404 and 409, under arbitrary interference before every call, is one protocol client's run: same final server, same result. |
| ClusterOps.CreateAlone | gpustack/gpustack/gpu_instances/cluster_apis.py:303-363 | With nobody else acting, a create appends and returns its envelope if there is no object, else appends nothing and returns what is there or the 409, as asked. |
| ClusterOps.UpsertObject | gpustack/gpustack/gpu_instances/cluster_apis.py:365-451 | The same for _upsert: patch, on 404 create, on 409 read. |
| ClusterOps.UpsertAlone | gpustack/gpustack/gpu_instances/cluster_apis.py:365-451 | With nobody else acting, an upsert appends and returns its envelope if there is no object, else its spec merged into the object held. |
| ClusterOps.PatchObject | gpustack/gpustack/gpu_instances/cluster_apis.py:453-494 | The same for _patch_spec; None iff the object was absent, else the merge of the spec into it, appended. |
| ClusterOps.DeleteObject | gpustack/gpustack/gpu_instances/cluster_apis.py:496-531 | The same for _delete: under any interference the object is absent when it returns, true only if an object stood directly before its removal; left alone it answers whether the object existed and appends exactly its removal. |
| ClusterOps.PlayKeeps | gpustack/gpustack/gpu_instances/cluster_apis.py:303-531 | Under any interference an operation ends and keeps the protocol's invariant: results held, conflicts explained. |
| WatchCache.CacheIsFoldSinceOpen | gpustack/gpustack/client/generated_model_instance_client.py:122-163 | Over every run, at every moment: a reader sees a started cache iff a connection is up, and then it is the left fold of that connection's events and nothing older; otherwise it is empty. |
| WatchCache.ReplicaTracksServer | gpustack/gpustack/client/generated_model_instance_client.py:222-301 | If every change is told once and in order: after the replay and k deltas the cache is the server's table after k changes, whatever session came before, with noise mixed in, and with a snapshot that already holds some of the deltas. |
| WatchCache.OverlapIsHarmless | gpustack/gpustack/mixins/active_record.py:830-868 | Because the stream is opened before the snapshot is read, changes may be told twice; replaying a history over a table that has a prefix of it gives the same table. |
| WatchCache.ReplayRebuilds | gpustack/gpustack/client/generated_model_instance_client.py:122-163 | A replay of the rows in any order rebuilds exactly the table. |
| WatchCache.DeltasCommit | gpustack/gpustack/client/generated_model_instance_client.py:122-163 | Applying the events of a list of changes commits those changes. |
| WatchCache.NoiseChangesNothing | gpustack/gpustack/client/generated_model_instance_client.py:145-152 | Heartbeats and events that do not validate never change the cache. |
| WatchCache.ModelInstanceClient.UpdateCacheFromEvent | gpustack/gpustack/client/generated_model_instance_client.py:120-163 | One event changes the cache by the fold step, and an id-only delete of a known row comes back with the row. |
| WatchCache.ModelInstanceClient.HandleEvent | gpustack/gpustack/client/generated_model_instance_client.py:244-281 | Cache, callback and stop test in this order: an id-only delete of a cached row is shown with the row, one of an unknown row to nobody, any other event as it is; a raising callback ends the watch before the stop test, which ends it on yes or an exception. |
| WatchCache.ModelInstanceClient.Awatch | gpustack/gpustack/client/generated_model_instance_client.py:191-301 | What readers could see after each line is the state of the run so far; the callback got every event in order, id-only deletes with their row, but for those no row was known of; the first line, error or cancellation that ends the session decides how; and afterwards the client is cold again. |
| WatchCache.EndsAtIs | gpustack/gpustack/client/generated_model_instance_client.py:217-281 | What each line of the stream does: silence, a line that is no event and a cancellation end the session each in its way; an event is shown as it came, an id-only delete of a cached row with that row, one of an unknown row to no callback; and then the stop condition is asked. |
| WatchCache.MatchesIs | gpustack/gpustack/client/generated_model_instance_client.py:89-104 | "watch" is no filter, "id" compares with the printed id, any other parameter with the attribute of its name if the row has one. |
| WatchCache.ModelInstanceClient.ListFromCache | gpustack/gpustack/client/generated_model_instance_client.py:71-118 | None iff the cache has no authority; else exactly the cached rows no parameter contradicts, each once. |
| WatchCache.ModelInstanceClient.List | gpustack/gpustack/client/generated_model_instance_client.py:31-69 | When list answers from the cache and when, and with which parameters, it calls the API. |
| WatchCache.ModelInstanceClient.Get | gpustack/gpustack/client/generated_model_instance_client.py:303-329 | A hit is the row readers see, under the key asked for. |
| QueueOrder.HandedInOrder | gpustack/gpustack/server/bus.py:116-175 | At every moment of every run, whatever is coalesced, parked, woken or cancelled: what was handed over and what is queued are, one by one, the events that entered the queue, in that order; each is itself or, for an update, an update of the same row. |
| QueueOrder.EnteredWasPublished | gpustack/gpustack/server/bus.py:116-167 | What has entered or is parked was published, each event as often at most. |
| QueueOrder.LastEntersIff | gpustack/gpustack/server/bus.py:154-175 | An event is the last of its row in that order iff it enters at some moment and nothing of the row after it. |
| QueueOrder.OnlyWantedHanded | gpustack/gpustack/server/bus.py:110-114 | Nor is it ever handed an event of another type. |
| QueueOrder.ReceivedIs | gpustack/gpustack/server/bus.py:116-128 | While it is open the received counts are the numbers of events published, per type. |
| Delivery.RunInv | gpustack/gpustack/server/bus.py:116-175 | In every state of a run whose commits make sense (rows created before they change, ids not used twice), for every row that keeps its turn, whatever happens to other rows: its last event to come, with coalescing resolved, or handed over if none is, is the one published last and so decides what the server's table holds. |
| Delivery.RowArrivesIff | gpustack/gpustack/server/bus.py:116-175 | At any moment after a row's last event was published at which its token is queued: unless a task of the row is cancelled later, that event comes out last iff nothing of the row is parked, or queued behind the token, at that moment. |
| Delivery.RowAgreesIff | gpustack/gpustack/server/bus.py:116-175 | A row none of whose tasks is cancelled: once all is drained every cache holds of it what the table holds iff the last of its events to enter the queue is of the kind published last, or it was created with the very values of its last update. |
| Delivery.DrainedReplica | gpustack/gpustack/mixins/active_record.py:822-868 | End to end, with a replay of any moment since the subscription: a client that has read all holds, row by row, what the server's table holds of every row in line and not lost to a cancellation; and the whole table if each row is so or keeps its turn. |
| Delivery.DeleteArrivesIff | gpustack/gpustack/server/bus.py:154-167 | From the moment a delete enters the queue, published into it or woken, and unless a task of its row is cancelled later: once all is drained the row is gone from a cache iff no other event of the row was parked at that moment. No premise on other rows, nor on what came before. |
| Delivery.DeleteEnters | gpustack/gpustack/server/bus.py:154-167 | Unless a task of its row is cancelled, a published delete enters the queue, at one moment only. |
| Delivery.DeleteGoneIff | gpustack/gpustack/server/bus.py:138-167 | With cancellations too: the row is gone from every cache iff the delete enters at some moment and nothing of its row after it. |
| Delivery.OvertakingHappens | gpustack/gpustack/server/bus.py:154-167 | Two concrete runs, drained, after which the server has deleted a row that every client still has: a delete published ahead of a parked update, and a parked delete woken ahead of it. |
| ExtAuth.BothOrdersRebuild | gpustack/gpustack/gateway/ext_auth.py:508-599 | One startup and one reconcile in either order leave exactly the resource rebuilt from scratch, from any state or none, spelt out field by field; a resource without the managed labels stays as it is. |
| ExtAuth.PublicRoutesAdmitted | gpustack/gpustack/gateway/ext_auth.py:227-278 | After a reconcile of any managed resource, or none, there is one rule a public route, keyed by exactly its ingresses and naming the public policy and nothing else; and none at all without public routes. |
| ExtAuth.ReconcileKeeps | gpustack/gpustack/gateway/ext_auth.py:537-599 | A reconcile sets the two tables and the route gate; every other field of the configuration and of its local_auth and the rest of the spec stay. |
| ExtAuth.SecondPassIsSilent | gpustack/gpustack/gateway/utils.py:1025-1074 | No churn: after a pass of either writer the same pass writes nothing, whether or not the store drops empty arrays. |
| ExtAuth.LastRouteLeaves | gpustack/gpustack/gateway/ext_auth.py:232-276 | Losing the last public route is a difference, and removes the rules. |
| ExtAuth.FalsyAre | gpustack/gpustack/gateway/ext_auth.py:460-505 | A rule whose access policy is null, false, zero or empty of any kind, and only such a one, names no policy. |
| ExtAuth.RunInv | gpustack/gpustack/gateway/utils.py:1024-1074 | In every interleaving of computations, reads, finishes, retries, edits and removals: a read whose version is current is the current resource, and a reconcile's tables are what the database held when they were computed. |
| ExtAuth.FinishIsAtomic | gpustack/gpustack/gateway/utils.py:1025-1074 | Every finish, however interleaved, changes nothing or does what the whole pass would do at that moment. |
| ExtAuth.EditedIsRead | gpustack/gpustack/gateway/utils.py:1025-1074 | An attempt that reads after somebody edited the resource works on the edited spec under the label it had, and gets through. |
| ExtAuth.StaleReadOnlyRecreates | gpustack/gpustack/gateway/utils.py:1024-1074 | However much was written since its read, a writer with an outdated read writes iff it read that there was no resource and there is none again. |
| ExtAuth.NoResurrection | gpustack/gpustack/gateway/ext_auth.py:474-534 | A key that is out of the database and of the resource stays out through all restarts, removals, retries and interleavings if no reconcile under way has it from before and nobody edits it in. |
| ExtAuth.StaysOutIff | gpustack/gpustack/server/gateway_auth_reconciler.py:599-641 | It stays out whatever happens iff no reconcile under way has it in tables computed before. |
| ExtAuth.OneReconcilerResurrects | gpustack/gpustack/server/gateway_auth_reconciler.py:582-641 | A run with one reconciler in which a revoked key comes back, by the pass computed before the revocation. |
| ExtAuth.OutForGoodIff | gpustack/gpustack/server/gateway_auth_reconciler.py:582-641 | With one reconciler, in every state it reaches: a revoked key is out for good iff it is out now and the pass under way, one at most, was computed when it was revoked. |
| ExtAuth.ThroughRevokes | gpustack/gpustack/gateway/utils.py:1025-1074 | A pass computed after the revocation that gets through, whether it writes or finds nothing to write, leaves the key out for good, whatever happened since its read, if nothing else under way has it and the resource read was ours or absent. |
| ExtAuth.RevokedForGood | gpustack/gpustack/server/gateway_auth_reconciler.py:582-654 | With one reconciler, whose loop computes only when its last pass is over, a write computed after the revocation revokes for good. |
| ExtAuth.ReconcileRevokes | gpustack/gpustack/gateway/ext_auth.py:537-599 | After a reconcile the tables are exactly its own, however malformed the resource was. |
| ExtAuth.LiveSpec.ReconcileInPlace | gpustack/gpustack/gateway/ext_auth.py:566-599 | The in-place assignments are the reconcile function on the old spec, the rest of the spec stays, and the rules are one a public route under its ingresses. |
| Lease.IdentityInjective | gpustack/gpustack/cloud_providers/common.py:73-79 | The hashed text determines cluster, id, name and the whole second of the last write, slashes in the name included. |
| Lease.KeysAgree | gpustack/gpustack/cloud_providers/common.py:40-79 | Two rows send one key iff they are one worker last written in one whole second, if the hash tells their identities apart. |
| Lease.KeyPerSecond | gpustack/gpustack/cloud_providers/common.py:40-79 | Told on the microseconds: one worker sends one key for two stamps from 1970 on iff some n has both in the n-th second; a row without a stamp sends the key of the stamps less than a second from zero. |
| Lease.NextKeeps | gpustack/gpustack/server/controllers.py:3149-3330 | Each undisturbing event keeps: at most one lease; a row at the create step and a reconcile working on it agree on the key it is under; a row with an external id names it. |
| Lease.AtMostOneLease | gpustack/gpustack/server/controllers.py:3149-3330 | Over every run of reads, creates, commits, failures and crashes in between, clock ticks and undisturbing writes by others, renames included, the provider holds at most one lease, and the row's external id is that one. |
| Lease.Provisions | gpustack/gpustack/server/controllers.py:3149-3180 | With nobody else writing and no failure, three reconciles take a pending worker to its lease: one lease, under the key of the row the second one wrote, and the row names it, stamped by the third. |
| Lease.CrashRecovers | gpustack/gpustack/cloud_providers/common.py:44-72 | At whatever point of an undisturbed run the worker is still at the create step, the next reconcile after a crash is answered with the lease there is, or makes the first one, and records it; if that lease has ended, the reconcile fails and the worker ends in ERROR. |
| Lease.EndedAre | gpustack/gpustack/cloud_providers/shuihua.py:683-700 | In every run the ended leases, which a replayed create is answered with all the same, are those that had ended and those that end in it. |
| Lease.RowChanges | gpustack/gpustack/cloud_providers/common.py:51-56 | Nothing but a write by another component or the end of a reconcile under way changes the row, and every change carries its moment's stamp. |
| Lease.NoClusterText | gpustack/gpustack/cloud_providers/common.py:77-78 | A worker without a cluster and a stamp is hashed as None/<id>/<name>/0. |
| Lease.SafeIffUndisturbed | gpustack/gpustack/cloud_providers/common.py:51-72 | In every state such a run reaches, a write by another component leaves at most one lease possible, whatever the controller, crashes and the provider do from then on, iff it is not a rename or a write in another second, leaving the row in provisioning, while a create is about to go out or a lease is not yet recorded. |
| Shuihua.CreateInstance | gpustack/gpustack/cloud_providers/shuihua.py:326-386 | With create_instance: a type that is no number, no cloud-config, more than 65536 bytes or a caller's key of more than 64 characters is rejected, exactly these, and reaches nothing; otherwise the lease of the key sent, under the first 64 characters of the name if it is new, refused iff the VM is failed or terminated or the answer names none. |
| Shuihua.KeySent | gpustack/gpustack/cloud_providers/shuihua.py:666-680 | The caller's key is sent as it is; without one the key has 41 characters and two orders share it iff they agree on labels and name. |
| Shuihua.Utf8SizeIs | gpustack/gpustack/cloud_providers/shuihua.py:366-372 | The size is a byte a character and one more from each bound of UTF-8 (section 3 of RFC 3629) on. |
| Shuihua.StatesAre | gpustack/gpustack/cloud_providers/shuihua.py:81-90 | What each VM status counts as; failed and terminated ones, and only those, are beyond hope. |
| Shuihua.Wait | gpustack/gpustack/cloud_providers/shuihua.py:558-582 | At most limit polls; the verdict of the first poll that is ready, terminal or an error; a timeout iff there was none. |
| Shuihua.WaitForStarted | gpustack/gpustack/cloud_providers/shuihua.py:558-569 | The first poll that is running, failed, terminated or an error decides, and how; ready only on a running instance some poll saw; a timeout iff there was no such poll. |
| Shuihua.WaitForPublicIp | gpustack/gpustack/cloud_providers/shuihua.py:571-582 | The same for an address. |
| Shuihua.IterVms | gpustack/gpustack/cloud_providers/shuihua.py:397-414 | For every page size and claimed page count the walk terminates and yields a prefix of the list, each VM once and in order. |
| Shuihua.WalkIsComplete | gpustack/gpustack/cloud_providers/shuihua.py:397-414 | The prefix is the whole list iff no page count is claimed or enough pages are. |
| Placeholders.Pattern.SubAround | gpustack/gpustack/gpu_instances/placeholders.py:18-44 | Every occurrence of a well-formed placeholder is replaced wherever it stands, and the text on either side is treated on its own; so occurrences never overlap. |
| Placeholders.Pattern.SubNothing | gpustack/gpustack/gpu_instances/placeholders.py:37-44 | Text without a valued placeholder is unchanged; unknown placeholders stay. |
| Placeholders.Pattern.NamesAreOccurrences | gpustack/gpustack/gpu_instances/placeholders.py:18 | The names the scan meets are those whose placeholder occurs anywhere as text. |
| Placeholders.Pattern.TailWasThere | gpustack/gpustack/gpu_instances/placeholders.py:37-44 | A tail of a provider's placeholder at the front of a result was there before: inserted values are too long to be closed in time. |
| Placeholders.Pattern.NamesLeft | gpustack/gpustack/gpu_instances/placeholders.py:18-53 | A provider's placeholder is in the result iff it was in the text and had no value: none survives, none is formed anew, those without a value all stay. |
| Placeholders.Pattern.SubTwice | gpustack/gpustack/gpu_instances/placeholders.py:29-53 | Substituting again, even with other values, changes nothing. |
| Placeholders.Replace | gpustack/gpustack/gpu_instances/placeholders.py:37-44 | The callback draws a secret exactly for a provider's name met for the first time. |
| Placeholders.SubText | gpustack/gpustack/gpu_instances/placeholders.py:18-44 | The scan with its callback yields the substitution under the values it leaves behind, with exactly the provider names of the text added. |
| Placeholders.Port.Substitute | gpustack/gpustack/gpu_instances/placeholders.py:48-53 | A port's access parameters are overwritten by their substitution; none or empty ones are left alone. |
| Placeholders.Spec.Substitute | gpustack/gpustack/gpu_instances/placeholders.py:29-53 | Command and all ports are replaced in place under one assignment of values; exactly one draw per provider name that occurs, "generated_token" being the only one; the list of ports is untouched. |
| Placeholders.GeneratedIsSecret | gpustack/gpustack/gpu_instances/placeholders.py:24-26 | What generate_secret_key makes, the hex of 16 bytes, is a value of the assumed kind: 32 characters without braces. |
| Placeholders.Spec.SubstituteTwice | gpustack/gpustack/gpu_instances/placeholders.py:29-53 | A whole spec substituted twice: no provider placeholder is left in any text after the first run, and the second draws nothing and changes neither the command nor any port. |
| Tenant.EffectiveRoleIs | gpustack/gpustack/api/tenant.py:115-173 | OWNER iff a live direct or via-live-group path carries it, MEMBER iff some path carries a role and none OWNER, none iff no path carries a role. |
| Tenant.RoleMonotone | gpustack/gpustack/api/tenant.py:115-173 | More memberships never lower a role. |
| Tenant.SoftDeleteCuts | gpustack/gpustack/api/tenant.py:134-154 | Soft-deleting a membership row cuts exactly the paths over it. |
| Tenant.AccessibleClusters | gpustack/gpustack/api/tenant.py:203-252 | The row loop fills exactly the live clusters granted to the user, its live groups, everybody or the Org, and their owners. |
| Tenant.AccessibleIs | gpustack/gpustack/api/tenant.py:176-252 | A live cluster is accessible iff granted to the user, to a live group the user is in, to everybody, or to the Org acted in. |
| Tenant.OwnersAre | gpustack/gpustack/api/tenant.py:203-252 | The owners that go with the accessible clusters are exactly theirs. |
| Tenant.AccessGrows | gpustack/gpustack/api/tenant.py:203-252 | Acting in an Org never reaches fewer clusters than the own scope. |
| Tenant.Request.Resolve | gpustack/gpustack/api/tenant.py:255-386 | Every resolved non-SYSTEM context is the platform view of an administrator, the own scope, or a live Org in which anybody but an administrator has a role; the principal acted as is the key's owner, else the header's, else nobody for an administrator and oneself for others; a service account is scoped by its worker before its cluster; which error it is otherwise, exactly; and a second resolution is the first. |
| Tenant.ListedAgainstVisible | gpustack/gpustack/api/tenant.py:501-532 | Listed implies visible, for all contexts and rows; visible but not listed are exactly rows with a NULL owner and granted workers of others, seen from a tenant's context. |
| Tenant.FoundAre | gpustack/gpustack/api/tenant.py:417-532 | Who finds what, in the list and one by one: a service account bound to a cluster the rows of it, of none, and those without the column; other service accounts everything; a user what the principal acted as owns and what has no owner column, and individually also rows nobody owns and granted workers. |
| Tenant.ClustersFoundAre | gpustack/gpustack/api/tenant.py:535-594 | Who finds which cluster: a bound service account its own, an unbound one and the platform view all, anyone else what he acts as owns and has access to. |
| Tenant.ClusterListIsVisible | gpustack/gpustack/api/tenant.py:535-594 | The cluster list filter, under SQL's three-valued logic, and the row check agree but for an id of -1 seen by a context that sees nothing. |
| Tenant.CreateAgainstWrite | gpustack/gpustack/api/tenant.py:597-710 | Outside service accounts write implies create; create without write is exactly an administrator acting as somebody who does not own the row. |
| Tenant.GatesAre | gpustack/gpustack/api/tenant.py:597-710 | Who may write and create, for every context, row and level, and the error otherwise. |
| Tenant.WritableIsListed | gpustack/gpustack/api/tenant.py:597-655 | Whoever may write a row, or anybody but an administrator may create it, finds it in the list and individually. |
| Tenant.WritesFollowMemberships | gpustack/gpustack/api/tenant.py:300-386 | End to end: a resolved non-administrator writes infrastructure rows iff the Org acted in owns them and a live path carries OWNER, workload rows iff the principal acted as owns them. |
| BusMetrics.TotalIsSumLessLost | gpustack/gpustack/server/bus.py:511-541 | Over every run of subscribe, count, remove and fold the reported total is at most the sum over all past and present subscribers, and equal iff none counted anything after it was folded. |
| BusMetrics.TotalNeverDecreases | gpustack/gpustack/server/bus.py:511-541 | And no later moment reports less. |
| BusMetrics.ShareDrops | gpustack/gpustack/exporter/bus_metrics.py:83-124 | For each subscriber, how much less a later scrape takes from it than an earlier one: the three ways, with amounts, and nothing else. |
| BusMetrics.SecondReportsLess | gpustack/gpustack/exporter/bus_metrics.py:83-124 | Of two successive scrapes of any run, each copying the lists, then seeding, then reading the counts one by one, the second reports less iff the drops outweigh the rises. |
| BusMetrics.NeverLessUnlessUnsubscribed | gpustack/gpustack/exporter/bus_metrics.py:83-124 | Never, if nobody is folded from the first one's copy to its last reading and the second does not begin in the middle of an unsubscribe. |
| BusMetrics.ScrapeNeverShort | gpustack/gpustack/exporter/bus_metrics.py:83-124 | A scrape that begins outside an unsubscribe reports no less than there was when it began. |
| BusMetrics.InstantScrapeIsTotal | gpustack/gpustack/exporter/bus_metrics.py:83-124 | A scrape of one moment outside an unsubscribe reports the total. |
| BusMetrics.ScrapeCanDrop | gpustack/gpustack/exporter/bus_metrics.py:95-124 | One run of one closing stream in which each of the three ways makes the next scrape report less. |
| BusMetrics.AddCounts | gpustack/gpustack/exporter/bus_metrics.py:118-124 | The dictionary loop adds each count to its label once. |
| BusMetrics.AddSub | gpustack/gpustack/exporter/bus_metrics.py:103-124 | One subscriber extends every gauge and counter by itself. |
| BusMetrics.Collect | gpustack/gpustack/exporter/bus_metrics.py:84-139 | Every pair with a subscriber appears once in each gauge with its count and maxima; every label once with the accumulator and all counts added. |
| BusMetrics.MaxOfIsMax | gpustack/gpustack/exporter/bus_metrics.py:107-117 | The gauges are maxima: reached by a subscriber of the pair, exceeded by none. |
| BusMetrics.ReportedIs | gpustack/gpustack/exporter/bus_metrics.py:84-139 | What is reported of a pair, told on its subscribers: how many, the largest depth, bound and number of pending keys, whether a bounded queue of theirs is full, and the part to which the fullest is filled. |
| Subscriber.RunInv | gpustack/gpustack/server/bus.py:64-175 | In every reachable state of an open subscriber an id has an entry iff exactly one token is queued or parked for it, the entry is the newest update, and every newest update is pending, delivered, or gone with a cancelled task. |
| Subscriber.DrainedIsCurrent | gpustack/gpustack/server/bus.py:116-175 | A consumer that has drained everything has seen the newest update of every id not lost to a cancellation. |
| Subscriber.NothingLost | gpustack/gpustack/server/bus.py:138-150 | Without cancellations nothing is lost. |
| Subscriber.QueueBounded | gpustack/gpustack/server/bus.py:154-167 | The queue never exceeds its bound in any run. |
| Subscriber.ParksOnlyIfFull | gpustack/gpustack/server/bus.py:154-167 | An event is parked only on meeting maxsize events in the queue, and a parked one gets in iff there is room. |
| Subscriber.UnboundedNeverParks | gpustack/gpustack/server/bus.py:154-167 | With maxsize 0 nothing is ever parked. |
| Subscriber.OnlyWanted | gpustack/gpustack/server/bus.py:110-114 | All that a subscriber which asked for some types holds, parks or has pending is of those types, in every run. |
| Subscriber.FilteredIs | gpustack/gpustack/server/bus.py:110-128 | In every run no event of a type asked for is filtered, and every one received of any other type is; without types none is. |
| Subscriber.RunConserves | gpustack/gpustack/server/bus.py:21-36 | Per event type, received equals filtered, coalesced, enqueued, parked and cancelled together; those that met a full queue are among the last three, in every run. |
| Subscriber.Queue.Add | gpustack/gpustack/server/bus.py:116-152 | enqueue up to its suspension is the publish step. |
| Subscriber.Queue.ResumePut | gpustack/gpustack/server/bus.py:166-167 | A parked put that gets its place is the resume step. |
| Subscriber.Queue.CancelPut | gpustack/gpustack/server/bus.py:138-150 | The rollback of a cancelled put is the cancel step. |
| Subscriber.Queue.Take | gpustack/gpustack/server/bus.py:169-175 | receive hands over the newest update of the id at the front, and its entry is gone. |
| Streaming.Response.StreamResponse | gpustack/gpustack/api/responses.py:22-119 | For every producer (chunks, then an end, an exception or a cancellation; encodings that fail) the messages sent and the status kept are those stated without the loop. |
| Streaming.Response.SentIs | gpustack/gpustack/api/responses.py:22-119 | Everything sent, message by message, for every producer: a chunk goes out iff it is bytes or text the charset has bytes for, the first one also iff its headers are Latin-1; before it the first chunk's status and headers, byte for character; after it an empty body, the 500 body on a failure, nothing on a cancellation; 503 if nothing was produced. |
| Streaming.HeadersAre | gpustack/gpustack/api/responses.py:34-37 | Headers go out iff all of them are Latin-1, in order, byte for character. |
| Streaming.Response.CompleteUnlessCutOff | gpustack/gpustack/api/responses.py:22-119 | The messages are one start, bodies that announce more, one that does not, iff the stream was not cut off by a cancellation; and then they stop short in mid-conversation; the status sent is the status kept. |
| Streaming.Response.AllGoodChunksSent | gpustack/gpustack/api/responses.py:32-61 | Every chunk before the first failure is sent, in order, behind a start with the first chunk's status. |
| Streaming.Response.Fail | gpustack/gpustack/api/responses.py:90-119 | The error path starts the response only if nothing was sent. |
| Brackets.BalanceCheck | deploy/inject_deploy_arch.py:506-518 | The guard accepts exactly the snippets whose depth never falls below zero and ends at zero. |
| Brackets.DepthCounts | deploy/inject_deploy_arch.py:506-518 | The depth is the number of openings less closings, three kinds of brackets counted alike. |
| Brackets.CloseOf | deploy/inject_deploy_arch.py:295-305 | The scan ends at the position that closes the enclosing bracket, with a balanced text cut out, or at the end of the text iff there is none. |
| Brackets.ClosesOnce | deploy/inject_deploy_arch.py:295-305 | There is at most one such position. |
| Brackets.SpliceDepths | deploy/inject_deploy_arch.py:501 | Replacing a stretch by one of equal depth keeps every depth before and after it and the total. |
| Brackets.SpliceBalanced | deploy/inject_deploy_arch.py:501 | Replacing a balanced stretch by a balanced snippet keeps a text balanced or unbalanced. |
| Brackets.Inject | deploy/inject_deploy_arch.py:240-606 | The script writes a chunk iff the anchors are found, the enclosing array closes before the expected text, all guarded snippets are balanced and the JavaScript checker agrees; and then it is the chunk with the snippets before the categories item, exactly that array's contents replaced, and the YAML tab behind its anchor. |
| Brackets.PreparedIs | deploy/inject_deploy_arch.py:240-264 | Where the two snippets go: right before the item's anchor, one behind the other, if the first does not form the anchor's text with what is around it; and when the script stops there. |
| Brackets.TabbedIs | deploy/inject_deploy_arch.py:527-586 | The tab goes right behind the first place of its anchor, and nowhere without one. |
| Brackets.SwitchedKeepsBalance | deploy/inject_deploy_arch.py:240-524 | Up to the YAML tab, whatever the snippets and the rendering, the chunk is balanced iff it was, at the same total depth. |
| Brackets.InjectedKeepsBalance | deploy/inject_deploy_arch.py:527-586 | A balanced chunk stays balanced iff the unguarded YAML tab fits behind its anchor: it ends at the depth it began with and never goes below the bottom from there; in particular if it would pass the guard. |
| Brackets.InsertBalanced | deploy/inject_deploy_arch.py:586 | A snippet put anywhere into a balanced text leaves it balanced iff it fits there. |
| Brackets.FindIsFirst | deploy/inject_deploy_arch.py:241-263 | An anchor found is its first occurrence. |
| Brackets.EndOfExpression | deploy/patch_ui_dist.py:176-188 | The scan ends just behind the first closing bracket that brings the depth back to zero, or at the end of the text iff there is none. |
| Brackets.CallEnds | deploy/patch_ui_dist.py:176-189 | In a balanced bundle an expression that opens a bracket first always ends at depth zero. |
| Brackets.CopiesBalanced | deploy/patch_ui_dist.py:189-191 | Copies of an expression behind it leave a balanced bundle balanced iff the expression ends at the depth it began with. |
| Brackets.BindComponents | deploy/patch_ui_dist.py:167-210 | All three branches: what is spliced where, and a balanced bundle stays balanced iff some bracket behind the binding's number brings the depth back to zero or the number stands outside all brackets; always for a call. |
| Brackets.AnchorIs | deploy/patch_ui_dist.py:167-187 | Which binding is copied: 49's, or without one 42's, and none if 51 is there. |
| Brackets.CopiesAre | deploy/patch_ui_dist.py:186-195 | Where the copies go: behind the expression as 51, and as 49 before that if there was none. |
| Brackets.BareBindingBreaks | deploy/patch_ui_dist.py:176-191 | A balanced bundle, with a binding that is no call, that comes out unbalanced. |

## Left out

- HTTP, Kubernetes, database and file I/O, retries and logging: maps, sequences and steps stand for them.
- argon2 itself and its memo cache, salt and secret randomness, JWT, sessions and Basic authentication.
- The nine other generated clients: the same template as the one modelled.
- WatchCache.ModelInstanceClient.List: no claim that the list is complete while the replay is still arriving, because the source declares the cache authoritative before the replay.
- WatchCache.ReplicaTracksServer: the snapshot is assumed not to be older than the subscription; the server reads it through a cache whose freshness is not modelled, and two overlapping watchers on one client are not either. That every change is told once and in order is a premise here; `Delivery` replaces it by what the bus does.
- Delivery.DrainedReplica: one server instance, whose events carry the rows as committed, and a subscriber that filters nothing and stays open; enrichment of another instance's events is left out.
- WatchCache.ModelInstanceClient.Values: rows are visited in an arbitrary order, not in the dictionary's.
- CrdProtocol.RunInv: 5xx and transport errors of the API server, and deletion of the namespace, are not modelled.
- ExtAuth.SecondPassIsSilent: inputs are the same in both passes; how the tables are computed from the database's rows is not modelled, only when.
- Lease.AtMostOneLease: one worker and one controller that handles its events one by one; two servers that both take themselves for the leader, the end of a worker (delete) and the phases after the instance runs are left out.
- Placeholders.Spec.Substitute: ports are distinct objects, as parsing makes them; dictionaries are visited in an arbitrary order.
- Tenant.Request.Resolve: worker_grant_ids is filled in later by other routes; it is empty here.
- Subscriber.RunInv: nothing is claimed of a subscriber once it is closed; close itself is a step that empties the queue.
- BusMetrics.SecondReportsLess: of an unsubscribe the removal and the folding of one label are two steps; the source folds label after label, so for several labels the second step may fall on different moments.
- BusMetrics.Collect: saturation is a rational number, not a float; label values are the texts they print as.
- Streaming.Response.StreamResponse: send never fails and is not itself cancelled.
- Brackets.Inject: the label rewrites inside the cut-out items are part of an arbitrary rendering function here, and the node syntax check is an arbitrary predicate.
- Brackets.InjectedKeepsBalance: the YAML tab is an arbitrary text; that the literal one of the source is balanced, and so fits, is not computed.
- Bracket scans do not know JavaScript strings or regular expressions; neither does the source.
- Rows authenticated by the gateway's own assertion, the in-place edits of volume specs (hoisted names, path isolation) and the assembly of the create request: no property that spans them.
- gateway/__init__.py's other spec helpers, topology and quota planning, UI texts, CLI, cloud-init and SSE usage metrics: plumbing or easier cases of what is modelled.
