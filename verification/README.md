# kratix-foundry, modelled in Dafny

This project is a Dafny model of the decision-making core of kratix-foundry. kratix-foundry is a Kratix platform that runs Foundry VTT game servers on Kubernetes.

Three Kratix promises drive it:

- **FoundryLicense.** A license may be held by at most one FoundryInstance at a time.
  - Its pipeline arbitrates switch requests. In `block` mode a live player probe can veto a switch away from an occupied server.
  - Instances scheduled for deletion are never made active.
  - It writes one HTTPRoute per bound instance, pointing either at the instance's own Service or at the shared standby page.
- **FoundryInstance.** Its pipeline validates the license reference, derives the NFS paths and writes the Deployment, Service, RBAC and (for the `pvc` backend) PVC manifests.
- **FoundryPassword.** Its pipeline writes an ExternalSecret and the notification status.

A Discord bot sits beside these. Its model covers:

- the tag filter that builds the version menu;
- a TTL cache;
- the convergence poller and hourly expiry sweep;
- the Kubernetes client transitions that activate and deactivate an instance and build create requests.

Everything is pure. Each source module becomes one Dafny module, in one file each, plus `Common`: Option/Result, a JSON value type, and the Python string and truthiness helpers.

The following are parameters of the model:

- the clock;
- HTTP exchanges;
- the cluster (a map of named objects);
- the API server's answers;
- the instance listing;
- the timestamp parser.

Python's `sys.exit` and uncaught exceptions become `Failure` values.

| file | module | source |
|---|---|---|
| common.dfy | Common | Python semantics shared by all modules |
| foundry_api.dfy | FoundryApi | lib/foundry_lib/foundry_api.py |
| manifest_templates.dfy | ManifestTemplates | lib/foundry_lib/manifest_templates.py |
| generate_route.dfy | GenerateRoute | promises/foundry-license/configure-pipeline/scripts/generate_route.py |
| validate_license.dfy | ValidateLicense | promises/foundry-license/configure-pipeline/scripts/validate_license.py |
| check_license.dfy | CheckLicense | promises/foundry-instance/configure-pipeline/scripts/check_license.py |
| setup_volume.dfy | SetupVolume | promises/foundry-instance/configure-pipeline/scripts/setup_volume.py |
| generate_manifests.dfy | GenerateManifests | promises/foundry-instance/configure-pipeline/scripts/generate_manifests.py |
| password.dfy | Password | promises/foundry-password/configure-pipeline/scripts/main.py |
| flux_cleanup.dfy | FluxCleanup | lib/foundry_lib/flux_cleanup.py |
| versions.dfy | Versions | discord-bot/utils/versions.py (`_filter_and_sort_versions`) |
| cache.dfy | Cache | discord-bot/cache.py |
| tasks.dfy | Tasks | discord-bot/tasks.py |
| k8s_client.dfy | K8sClient | discord-bot/k8s_client.py |

`GenerateRoute.GenerateRoutes` follows the source as written. The deletion override happens inside the per-instance loop, so the result depends on listing order.

`GenerateRoute.GenerateRoutesSettled` is the corrected variant. It settles the override before any entry is emitted.

## Model

| member | source | states |
|---|---|---|
| FoundryApi.Scheme | lib/foundry_lib/foundry_api.py:10-15 | The scheme is `http` exactly when the hostname contains `localhost`, `127.0.0.1`, `.svc.cluster.local` or `.k8s.orb.local`, and `https` otherwise |
| FoundryApi.VerifyTls | lib/foundry_lib/foundry_api.py:21 | TLS verification is off exactly when the hostname starts with `localhost` or `127.0.0.1` |
| FoundryApi.Request | lib/foundry_lib/foundry_api.py:10-22 | The probe requests `<scheme>://<hostname>/api/status` with header `Bearer <admin key>`, a 10 second timeout and the TLS choice above |
| FoundryApi.CheckPlayers | lib/foundry_lib/foundry_api.py:24-37 | A successful response gives `connectedPlayers` = `users` (default 0), `worldActive` = `world` (default false) and no error. Any failure gives -1 players and the error "connection failed" |
| FoundryApi.FailureNeverLooksEmpty | lib/foundry_lib/foundry_api.py:26-37 | The report carries an error exactly when the probe failed, and a failed probe never reports 0 players |
| FoundryApi.ClusterServiceProbeIsPlainHttp | lib/foundry_lib/foundry_api.py:10-21 | The license pipeline probes the in-cluster Service host `foundry-<name>.<ns>.svc.cluster.local` over plain HTTP, with TLS verification left on |
| ManifestTemplates.HttpRouteTemplate | lib/foundry_lib/manifest_templates.py:1-32 | The route is named `foundry-id-<name>`, has exactly one hostname, one parentRef (gateway name and namespace), and one backendRef to the given Service on port 80 |
| ManifestTemplates.DnsEndpointTemplate | lib/foundry_lib/manifest_templates.py:34-52 | The endpoint is named `foundry-id-<name>` and holds one A record for the hostname, with TTL 300 and the single given target |
| ManifestTemplates.DeploymentTemplate | lib/foundry_lib/manifest_templates.py:54-167 | The Deployment is `foundry-<name>` with 1 replica and the Recreate strategy, and its selector, pod labels and labels agree. It runs as the monitor account, with the Foundry container on port 30000 and the data volume. The monitor container and credentials volume are added exactly when a monitor image is given |
| ManifestTemplates.RbacTemplates | lib/foundry_lib/manifest_templates.py:169-214 | RBAC is exactly ServiceAccount, Role and RoleBinding, all named `foundry-<name>-monitor`. The binding's subject is that ServiceAccount and its roleRef is that Role |
| ManifestTemplates.ServiceTemplate | lib/foundry_lib/manifest_templates.py:216-236 | The Service is `foundry-<name>`, of type ClusterIP, mapping port 80 to 30000 and selecting the instance labels |
| ManifestTemplates.PvcTemplate | lib/foundry_lib/manifest_templates.py:238-254 | The claim is `foundry-<name>-data`, ReadWriteOnce, with the requested storage (default 10Gi) |
| ManifestTemplates.ActiveRouteReachesFoundry | lib/foundry_lib/manifest_templates.py:216-236 | An active route's backend `foundry-<name>`:80 is the instance's Service. That Service's target port is a port of the Foundry container, and it selects exactly the Deployment's pods |
| ManifestTemplates.MonitorIdentityConsistent | lib/foundry_lib/manifest_templates.py:169-214 | The RBAC kinds come in order. The ServiceAccount is the Deployment's serviceAccountName, and the binding grants that account the Role |
| ManifestTemplates.ClaimMatchesPvc | lib/foundry_lib/manifest_templates.py:238-254 | A claim volume for `foundry-<name>-data` names the PVC the template creates |
| GenerateRoute.Arbitrate | promises/foundry-license/configure-pipeline/scripts/generate_route.py:39-68 | See [Arbitrate](#arbitrate) below |
| GenerateRoute.ErrorWarningIsInformative | promises/foundry-license/configure-pipeline/scripts/generate_route.py:55-58 | The unverifiable-probe warning names the desired instance, the current holder and the probe error |
| GenerateRoute.PlayersWarningIsInformative | promises/foundry-license/configure-pipeline/scripts/generate_route.py:59-62 | The occupied-server warning names both instances and the player count |
| GenerateRoute.FailedProbeBlocksSwitch | promises/foundry-license/configure-pipeline/scripts/generate_route.py:51-58 | A probe that got no response blocks the switch with the "connection failed" warning. The -1 players are not read as an empty server |
| GenerateRoute.EmptyServerAllowsSwitch | promises/foundry-license/configure-pipeline/scripts/generate_route.py:59-64 | A successful probe reporting 0 users lets the switch through with no warning |
| GenerateRoute.RouteFor | promises/foundry-license/configure-pipeline/scripts/generate_route.py:105-133 | Each route is `foundry-id-<name>` in the license namespace, for host `<name>.<baseDomain>`, behind the license's gateway, and carries the `license` label. An active route goes to `foundry-<name>` in its own namespace; a standby one goes to `foundry-standby-page` in `foundry-vtt` |
| GenerateRoute.Step | promises/foundry-license/configure-pipeline/scripts/generate_route.py:84-134 | An unbound instance changes nothing. A bound one appends one entry and one route file, in the state the holder gives it. A pending instance with a non-empty name is always standby. The holder only moves, with the deletion warning, at a pending instance named after it, and only to the status holder or to nobody |
| GenerateRoute.Loop | promises/foundry-license/configure-pipeline/scripts/generate_route.py:83-134 | The entries are the earlier ones followed by the bound instances, in listing order, with one route file each. The final holder is the starting one, the status holder or nobody. A changed holder always carries a warning, and a listing with nothing pending changes neither |
| GenerateRoute.GenerateRoutes | promises/foundry-license/configure-pipeline/scripts/generate_route.py:19-149 | Entries are exactly the bound instances, one route file each. The probe runs exactly for a switch requested in block mode with an admin key. The reported holder is the desired one, the status holder or nobody, and it differs from the desired one only with a warning |
| GenerateRoute.NullModeActsAsForce | promises/foundry-license/configure-pipeline/scripts/generate_route.py:23-47 | A `switchMode` that is present but null is not "block": the whole pass equals the force-mode pass and never probes |
| GenerateRoute.LoopConsistent | promises/foundry-license/configure-pipeline/scripts/generate_route.py:83-134 | Loop invariant: entries and route files pair up with the bound instances in order. Every active entry is named after the current holder and is not pending deletion |
| GenerateRoute.GenerateRoutesShape | promises/foundry-license/configure-pipeline/scripts/generate_route.py:83-149 | See [GenerateRoutesShape](#generateroutesshape) below |
| GenerateRoute.HolderKeptUntilReached | promises/foundry-license/configure-pipeline/scripts/generate_route.py:94-101 | Until a pending-deletion instance named after the holder is reached, the holder and the warning do not change |
| GenerateRoute.OverrideSticks | promises/foundry-license/configure-pipeline/scripts/generate_route.py:94-101 | Once the pending holder is reached, the holder is never that instance again. It becomes the last confirmed holder or "", and a warning is set |
| GenerateRoute.PendingHolderOverridden | promises/foundry-license/configure-pipeline/scripts/generate_route.py:94-101 | If arbitration picks an instance pending deletion, the reported `activeInstance` is the last confirmed holder or "", never that instance, and the status carries a warning |
| GenerateRoute.NoPendingKeepsDecision | promises/foundry-license/configure-pipeline/scripts/generate_route.py:83-119 | With nothing pending deletion, the status holder and warning are arbitration's, and an entry is active exactly when it is named after that holder |
| GenerateRoute.OverrideAfterEmissionLeavesNoActiveEntry | promises/foundry-license/configure-pipeline/scripts/generate_route.py:94-119 | Force-switching from `a` to a pending `b` listed after `a` reports `a` as active while both entries are standby |
| GenerateRoute.PendingCurrentCanBeReported | promises/foundry-license/configure-pipeline/scripts/generate_route.py:94-101 | The override can fall back to a confirmed holder that is itself pending deletion, and report it as active |
| GenerateRoute.SettleHolder | promises/foundry-license/configure-pipeline/scripts/generate_route.py:97-101 | Corrected override: the settled holder is never pending deletion (or it is ""). A holder not pending is kept. A pending one falls back to the confirmed holder unless that is pending too |
| GenerateRoute.Emit | promises/foundry-license/configure-pipeline/scripts/generate_route.py:105-134 | With a fixed holder, one entry and one matching route per bound instance, in order. An entry is active exactly when it is named after the holder |
| GenerateRoute.GenerateRoutesSettled | promises/foundry-license/configure-pipeline/scripts/generate_route.py:83-149 | Corrected pass: entries are the bound instances. The reported holder is "" or not pending deletion, and an entry is active exactly when it is named after the reported holder |
| GenerateRoute.SettledAgreesWithoutPending | promises/foundry-license/configure-pipeline/scripts/generate_route.py:83-149 | When nothing bound is pending deletion, the corrected pass and the as-written pass give identical status and routes |
| GenerateRoute.GenerateRoutesAsWritten | promises/foundry-license/configure-pipeline/scripts/generate_route.py:123-131 | Given the template's parameter list, the pass completes exactly when no instance is bound to the license |
| GenerateRoute.RouteCallRejectedWhenAnyInstanceBound | promises/foundry-license/configure-pipeline/scripts/generate_route.py:123-131 | `backend_ns` is the only keyword the template does not declare. The pass fails exactly when some instance is bound |
| Versions.JoinSplit | discord-bot/utils/versions.py:127 | Splitting a name on `.` and joining the pieces gives the name back |
| Versions.PatternIsVersion | discord-bot/utils/versions.py:123 | Every name in the language of `\d+(\.\d+)+` (after dropping one final newline) is accepted as a version |
| Versions.VersionIffPattern | discord-bot/utils/versions.py:123 | The version test accepts exactly the names in the pattern's language: both directions |
| Versions.Key | discord-bot/utils/versions.py:127-131 | The key is the integer groups followed by zeros: exactly three entries for shorter names, the groups themselves for longer ones |
| Versions.VersionMatchesPattern | discord-bot/utils/versions.py:123 | A name accepted as a version (without a final newline) has digits at both ends, only digits and dots, no two dots in a row, and at least one dot, which is the language of `\d+(\.\d+)+` |
| Versions.KeyFollowsComponents | discord-bot/utils/versions.py:127-131 | Spellings with equal integer groups share the padded key, and the key starts with the major |
| Versions.ShortFormSharesKey | discord-bot/utils/versions.py:127-138 | `1.2` and `1.2.0` are both versions with the same key `[1,2,0]` but different group lists, so only one of them is kept |
| Versions.LexTotal | discord-bot/utils/versions.py:170-174 | Python's list comparison on integer groups is total: two lists are equal or one is smaller |
| Versions.SortStrictlyDescending | discord-bot/utils/versions.py:170-174 | Versions with distinct group lists sort strictly newest first |
| Versions.FirstShortestIsFirstMinimum | discord-bot/utils/versions.py:133-138 | The replace-only-if-strictly-shorter rule keeps a shortest spelling, and no earlier spelling is as short |
| Versions.Admit | discord-bot/utils/versions.py:133-138 | Each step grows the stored list by at most one entry, and every entry is either the new spelling or the one stored at that position before |
| Versions.Dedupe | discord-bot/utils/versions.py:119-141 | The first pass stores only names that match the pattern, at most one per tag |
| Versions.DedupeDeduped | discord-bot/utils/versions.py:120-141 | After the first pass keys are distinct, every key of a numeric tag is stored, and each stored spelling is the first shortest spelling of its key |
| Versions.ReleaseDigest | discord-bot/utils/versions.py:110-114 | The release digest is that of the first tag named `release`, and absent when no tag has that name |
| Versions.DedupeEmptyIffNoNumeric | discord-bot/utils/versions.py:120-141 | The first pass stores something exactly when some tag name is a version |
| Versions.OfferedVersionsOrdered | discord-bot/utils/versions.py:120-200 | Offered versions are tag names matching the pattern, strictly descending, with pairwise distinct keys, each the first shortest spelling of its key |
| Versions.OfferedVersionsBounded | discord-bot/utils/versions.py:182-198 | At most three majors, at most five versions per major, at most fifteen in all |
| Versions.SortDescending | discord-bot/utils/versions.py:169-176 | The sort returns a permutation of the stored versions |
| Versions.TopAreGreatest | discord-bot/utils/versions.py:193-194 | The chosen majors occur among the versions, there are min(3, number of majors) of them, and every major left out is below every chosen one |
| Versions.OfferedVersionsComplete | discord-bot/utils/versions.py:181-198 | Each chosen major offers exactly the first five of its versions in the newest-first list, and no other major offers anything |
| Versions.EmptySelectionIffNoNumeric | discord-bot/utils/versions.py:165-179 | The list is empty, and there is no stable version, exactly when no tag is numeric |
| Versions.StableIsNewestWithoutRelease | discord-bot/utils/versions.py:178-179 | Without a release digest shared by a numeric tag, the stable version is the first offered one, and every other stored version is below it |
| Versions.StableFollowsRelease | discord-bot/utils/versions.py:144-163 | With a release digest shared by numeric tags, the stable version is the stored spelling of one of those tags' keys, at least as long as every other such spelling |
| Cache.New | discord-bot/cache.py:14-16 | A new cache holds no key and keeps the given default TTL |
| Cache.Get | discord-bot/cache.py:18-29 | An absent key misses. A stored key hits exactly while its age is below the effective TTL (the override when given, even 0, else the default), and a hit returns the stored value |
| Cache.Set | discord-bot/cache.py:31-36 | Set stores the value with the current time under the key, adds the key, and leaves every other entry alone |
| Cache.Invalidate | discord-bot/cache.py:38-40 | Invalidate removes only that key, and an absent key leaves the cache unchanged |
| Cache.Clear | discord-bot/cache.py:42-44 | Clear removes every entry and keeps the default TTL |
| Cache.GetAfterSet | discord-bot/cache.py:18-36 | A value just stored is served until the TTL elapses, and storing one key never changes another key's lookup |
| Cache.GetAfterInvalidate | discord-bot/cache.py:18-40 | After invalidate the key misses and every other key reads as before |
| Cache.GetAfterClear | discord-bot/cache.py:18-44 | After clear every lookup misses |
| Cache.ExpiryIsMonotone | discord-bot/cache.py:23-29 | As the clock moves forward a hit can only become a miss, never the reverse |
| Cache.ZeroTtlNeverHits | discord-bot/cache.py:25-27 | A TTL override of 0 never serves an entry stored at or before now |
| Tasks.Wait | discord-bot/tasks.py:71-82 | See [Wait](#wait) below |
| Tasks.WaitFrom | discord-bot/tasks.py:71-82 | From any poll on: every fetch is before the deadline, a result is a truthy fetch that passes the check and ends the wait, a timeout is reported only at or past the deadline, and every earlier fetch missed |
| Tasks.WaitFromChecksTruthy | discord-bot/tasks.py:74 | The condition is only applied to truthy fetch results, at most once per fetch |
| Tasks.WaitFromProgress | discord-bot/tasks.py:77-78 | The progress callback receives each unsuccessful fetch result in order, or nothing when no callback is given |
| Tasks.WaitFromSleeps | discord-bot/tasks.py:80 | Each unsuccessful poll is followed by exactly one sleep of the fixed interval |
| Tasks.WaitFindsEarliestHit | discord-bot/tasks.py:72-75 | If a fetch before the deadline hits, the wait returns a value no later than that fetch |
| Tasks.NonPositiveTimeoutNeverFetches | discord-bot/tasks.py:72 | With a timeout of 0 or less the resource is never fetched and the result is None |
| Tasks.IdealClockPollCount | discord-bot/tasks.py:72-80 | With instantaneous fetches and exact sleeps the number of polls is at most ceil(timeout / interval), and exactly that on timeout |
| Tasks.Decide | discord-bot/tasks.py:27-48 | See [Decide](#decide) below |
| Tasks.Sweep | discord-bot/tasks.py:17-26 | A disconnected client does nothing. Otherwise every listed instance gets a decision |
| Tasks.Deleted | discord-bot/tasks.py:41-46 | The deleted instances are exactly the targets of the Delete decisions |
| Tasks.SweepSplits | discord-bot/tasks.py:26-48 | The sweep over a concatenated listing is the two sweeps one after the other, so a failure is confined to its instance |
| Tasks.SweepDecidesEach | discord-bot/tasks.py:26-48 | The i-th decision depends only on the i-th instance |
| Tasks.DeletesExactlyExpired | discord-bot/tasks.py:41-46 | Every expired instance with a name and namespace is deleted |
| Tasks.DeletesOnlyExpired | discord-bot/tasks.py:41-46 | Everything deleted is an expired instance of the listing |
| K8sClient.IsExternalSecretSynced | discord-bot/k8s_client.py:492-498 | Synced exactly when some condition has type "Ready" and status the string "True" |
| K8sClient.BooleanStatusIsNotSynced | discord-bot/k8s_client.py:496-498 | A boolean `true` status, or a "False" one, does not count as synced |
| K8sClient.ResolveLicense | discord-bot/k8s_client.py:673-683 | Lookup from instance to license succeeds exactly when the instance exists, has a non-empty licenseRef, and that license exists |
| K8sClient.Activate | discord-bot/k8s_client.py:661-719 | See [Activate](#activate) below |
| K8sClient.Deactivate | discord-bot/k8s_client.py:722-785 | See [Deactivate](#deactivate) below |
| K8sClient.ActivateIsIdempotent | discord-bot/k8s_client.py:685-688 | After a successful activation a second one succeeds without a patch and leaves the store alone |
| K8sClient.DeactivateUndoesActivate | discord-bot/k8s_client.py:690-765 | Accepted activation then accepted deactivation restores a license that had no holder |
| K8sClient.DeactivateOthersIsNoOp | discord-bot/k8s_client.py:747-749 | Deactivating an instance that is not the holder succeeds without a patch |
| K8sClient.InstanceSpec | discord-bot/k8s_client.py:589-608 | See [InstanceSpec](#instancespec) below |
| K8sClient.Annotations | discord-bot/k8s_client.py:611-620 | An annotation is present exactly when its value is truthy |
| K8sClient.CreateMetadata | discord-bot/k8s_client.py:621-630 | Metadata carries name and namespace, and `annotations` only when non-empty |
| K8sClient.InstanceBody | discord-bot/k8s_client.py:589-637 | The FoundryInstance body has apiVersion `foundry.platform/v1alpha1`, kind FoundryInstance and the spec above. Its metadata holds the name and namespace. The creator annotations are present exactly for truthy values and hold those values. The `annotations` dict is dropped when it would be empty |
| K8sClient.PasswordBody | discord-bot/k8s_client.py:338-362 | The FoundryPassword body has apiVersion `foundry.platform/v1alpha1`, kind FoundryPassword and the password type. `instanceRef` is `{name: <instance>}` exactly when the instance name is truthy. Its metadata holds the name and namespace and the truthy owner annotations with their values |
| K8sClient.InstanceBodyRoundTrip | discord-bot/k8s_client.py:589-637 | Reading the body back gives every argument of the create call, with falsy optional settings dropped |
| K8sClient.PasswordBodyRoundTrip | discord-bot/k8s_client.py:338-362 | Reading the body back gives every argument of the create call, with falsy optional ones dropped |
| K8sClient.TargetNamespace | discord-bot/k8s_client.py:567-590 | The namespace argument when truthy, else the configured default |
| K8sClient.CreateInstance | discord-bot/k8s_client.py:582-658 | Creation succeeds exactly when connected and accepted. A 409 is "already exists". A 422 reports the error body's `message`, or the exception text when a dict body has none, or the reason when the body is not a JSON dict. Any other status reports the reason |
| K8sClient.CreatePassword | discord-bot/k8s_client.py:334-381 | Creation succeeds exactly when connected and accepted. A 409 is "already exists", and every other rejection reports the reason |
| K8sClient.ConflictIsFailure | discord-bot/k8s_client.py:378-379 | A name clash is a failure for both instances and passwords |
| K8sClient.ValidationFallbacksDiffer | discord-bot/k8s_client.py:648-652 | When a dict error body has no `message`, a create falls back to the exception text, while a deactivation (lines 773-780) falls back to the reason |
| Password.ExternalSecretTemplate | promises/foundry-password/configure-pipeline/scripts/main.py:17-56 | The ExternalSecret is named after the secret, in the namespace, labelled with the password name, never auto-refreshed (`"0"`), and targets the secret name |
| Password.Status | promises/foundry-password/configure-pipeline/scripts/main.py:88-105 | The status is Ready with secretName and lastRefreshed = now. A first run stamps createdAt = now and raises the notification flag; later runs keep createdAt verbatim and lower it |
| Password.Configure | promises/foundry-password/configure-pipeline/scripts/main.py:59-107 | Fails exactly when the name or namespace is missing. The secret name is the resource name and the type defaults to "default" |
| Password.NotifiesOnce | promises/foundry-password/configure-pipeline/scripts/main.py:95-105 | Feeding one run's status into the next keeps createdAt and lowers the flag, so the notification fires once |
| FluxCleanup.CleanObject | lib/foundry_lib/flux_cleanup.py:39-54 | See [CleanObject](#cleanobject) below |
| FluxCleanup.CleanObjectIdempotent | lib/foundry_lib/flux_cleanup.py:39-54 | Cleaning a cleaned object changes nothing |
| FluxCleanup.CleanItems | lib/foundry_lib/flux_cleanup.py:22-25 | A List's items are cleaned one by one, and the pass fails exactly when some item fails |
| FluxCleanup.CleanDocument | lib/foundry_lib/flux_cleanup.py:18-27 | A List whose items are an array has each item replaced by its cleaned form, and every other key unchanged. A List without items, or whose items are a dict or a string, is unchanged. A List whose items are not iterable fails. Any other document is cleaned itself |
| FluxCleanup.CleanFile | lib/foundry_lib/flux_cleanup.py:10-31 | Non-YAML files, unparsable files, falsy documents and non-dict documents are left untouched. A truthy dict document is replaced by its cleaned form, and the file fails exactly when cleaning it fails |
| FluxCleanup.Cleanup | lib/foundry_lib/flux_cleanup.py:1-37 | On success every file but `object.yaml` remains, each replaced by its cleaned form. Any failure aborts the pass |
| FluxCleanup.CleanupIdempotent | lib/foundry_lib/flux_cleanup.py:1-37 | Running the scrubber on its own output changes nothing |
| FluxCleanup.CleanDocumentIdempotent | lib/foundry_lib/flux_cleanup.py:18-27 | Cleaning a cleaned document changes nothing and keeps its keys |
| SetupVolume.PathJoin | promises/foundry-instance/configure-pipeline/scripts/setup_volume.py:43-44 | `os.path.join` keeps an absolute second part and otherwise extends the first |
| SetupVolume.DataPath | promises/foundry-instance/configure-pipeline/scripts/setup_volume.py:21-26 | The data path is `nfsBasePath` unless it is missing, empty or "null"; then it is `<base>/instances/<name>`. Either way it is non-empty |
| SetupVolume.RelativeDataPath | promises/foundry-instance/configure-pipeline/scripts/setup_volume.py:42 | The relative data path never starts with "/" and is no longer than the data path |
| Common.RemovalCanLeaveOccurrence | promises/foundry-instance/configure-pipeline/scripts/setup_volume.py:42 | `str.replace` makes one left-to-right pass, so removing "ab" from "aabb" leaves "ab" |
| SetupVolume.SetupNfsVolume | promises/foundry-instance/configure-pipeline/scripts/setup_volume.py:1-64 | See [SetupNfsVolume](#setupnfsvolume) below |
| SetupVolume.JoinedUnder | promises/foundry-instance/configure-pipeline/scripts/setup_volume.py:43-44 | The module and world directories created are under the mount root |
| SetupVolume.PvcNeedsNoServer | promises/foundry-instance/configure-pipeline/scripts/setup_volume.py:11-19 | The pvc backend succeeds without an NFS server and creates no directories |
| SetupVolume.DefaultLayout | promises/foundry-instance/configure-pipeline/scripts/setup_volume.py:21-30 | With no configured paths, data lives at `/exports/instances/<name>` and plugins under its `Data/modules` |
| GenerateManifests.SecretName | promises/foundry-instance/configure-pipeline/scripts/generate_manifests.py:28-31 | The secret is `adminPasswordSecretRef.name` when set, else `foundry-credentials-<name>`, and never empty |
| GenerateManifests.VolumeDef | promises/foundry-instance/configure-pipeline/scripts/generate_manifests.py:38-53 | The pvc backend mounts the claim the PVC template names; any other backend mounts the NFS export at the volume info's server and data path |
| GenerateManifests.RbacFileNames | promises/foundry-instance/configure-pipeline/scripts/generate_manifests.py:77-80 | RBAC files are named after the lower-cased kinds |
| GenerateManifests.InstanceDeployment | promises/foundry-instance/configure-pipeline/scripts/generate_manifests.py:16-25 | The Deployment uses the defaults 13.347.0, 100m, 256Mi, proxy SSL on and port 443, and host `<name>.<baseDomain>`. It mounts the chosen volume and carries the monitor sidecar |
| GenerateManifests.OutputFiles | promises/foundry-instance/configure-pipeline/scripts/generate_manifests.py:41-80 | Output is always deployment, service and the three RBAC files, plus `pvc.yaml` exactly for the pvc backend |
| GenerateManifests.Generate | promises/foundry-instance/configure-pipeline/scripts/generate_manifests.py:6-83 | Corrected step: fails only on missing metadata; never reports a generated password; returns the secret name; writes the files above |
| GenerateManifests.GenerateAsWritten | promises/foundry-instance/configure-pipeline/scripts/generate_manifests.py:41-70 | As written: `pvc.yaml` is written before the deployment call, and the step succeeds only if every keyword is declared |
| GenerateManifests.DeploymentCallAlwaysRejected | promises/foundry-instance/configure-pipeline/scripts/generate_manifests.py:56-69 | `admin_secret_name` and `storage_backend` are the undeclared keywords. The step always fails and never writes `deployment.yaml` |
| GenerateManifests.PvcClaimMatches | promises/foundry-instance/configure-pipeline/scripts/generate_manifests.py:41-45 | The claim the Deployment mounts is the PVC the step writes |
| ValidateLicense.Validate | promises/foundry-license/configure-pipeline/scripts/validate_license.py:3-26 | Accepts exactly when name and key are both present, non-empty and not "null". The name is checked first |
| ValidateLicense.ValidateAcceptsExactlyUsable | promises/foundry-license/configure-pipeline/scripts/validate_license.py:17-26 | For every reference: it validates exactly when neither field is absent, empty or "null". The name's error is reported first. What validates is handed back unchanged |
| ValidateLicense.RejectsMissingEmptyAndNull | promises/foundry-license/configure-pipeline/scripts/validate_license.py:17-23 | Missing, empty and "null" names are rejected alike; a bad key is reported only after the name passes |
| CheckLicense.Check | promises/foundry-instance/configure-pipeline/scripts/check_license.py:4-79 | See [Check](#check) below |
| CheckLicense.CheckFollowsLookup | promises/foundry-instance/configure-pipeline/scripts/check_license.py:27-79 | For every lookup, with a usable reference, the check succeeds and the patch answer changes nothing. The instance is active exactly when the found license's holder, with "" for a missing field, is its name. The patch is sent exactly when the license was found |
| CheckLicense.ActivityFollowsSpec | promises/foundry-instance/configure-pipeline/scripts/check_license.py:43-74 | A license whose spec names the instance makes it active whatever the patch does. A failed lookup is inactive with the default domain, not fatal |
| CheckLicense.EmptyNameMatchesMissingHolder | promises/foundry-instance/configure-pipeline/scripts/check_license.py:43-44 | A missing `activeInstanceName` reads as "", so an instance named "" counts as active |

### Longer contracts

#### Arbitrate

`GenerateRoute.Arbitrate` (generate_route.py:39-68):

- **Holder.** The pre-deletion holder is the desired or the current instance.
- **Warning.** There is a warning exactly when the holder is not the desired instance.
- **When the probe runs.** The probe is called exactly when a switch is requested, the mode is literally "block", and an admin key is given. A missing mode is "block"; a null one is not. A switch is requested when current and desired are both set and differ. The probe targets `foundry-<current>.<ns>.svc.cluster.local`.
- **No switch or another mode.** With no switch requested, or any mode other than "block", the holder is the desired instance.
- **No key.** Without a key the current holder is kept, with the credentials warning.
- **Probe error.** A probe error keeps the current holder, with the error warning.
- **Player count.** Otherwise the current holder is kept exactly when the players (default 0) exceed 0, with the count warning.

#### GenerateRoutesShape

`GenerateRoute.GenerateRoutesShape` (generate_route.py:83-149), for unique bound names:

- Entries are exactly the instances bound to the license, in listing order.
- Each entry has a route file `route-<name>.yaml` with host `<name>.<baseDomain>`.
- The backend follows the entry's state.
- Every active entry is the reported `activeInstance` and is not pending deletion.
- At most one entry is active.

#### Wait

`Tasks.Wait` (tasks.py:71-82):

- **Fetch timing.** Every fetch happens before the deadline.
- **Success.** A returned value is the last fetch, and it is truthy and passes the check.
- **Timeout.** None is returned once elapsed time reaches the timeout.
- **No earlier hit.** No earlier fetch hit.
- **Progress callback.** The callback sees every miss.
- **Sleeps.** Each miss is followed by one sleep of the interval.

#### Decide

`Tasks.Decide` (tasks.py:27-48):

- **Delete.** An instance is deleted exactly when it is expired and has a name and a namespace. Expired means the annotation is set, it parses, and now is at or after its UTC instant, compared exactly, fractions of a second included; naive timestamps are read as UTC.
- **Failure.** An unparsable timestamp, or an expired instance missing its name or namespace, is a caught failure.
- **Keep.** An instance without the annotation is kept.

#### Activate

`K8sClient.Activate` (k8s_client.py:661-719):

- **Failures before any patch.** It fails when disconnected or unresolvable, without patching.
- **Already the holder.** No patch is sent when the instance already holds the license.
- **The patch.** Otherwise it patches only `activeInstanceName := name`, and succeeds exactly when the patch is accepted.
- **422 reply.** A 422 reply gives "Switch blocked".
- **Store on failure.** A failure leaves the store unchanged.

#### Deactivate

`K8sClient.Deactivate` (k8s_client.py:722-785):

- **Failures before any patch.** It fails when disconnected or unresolvable, without patching.
- **When the patch is sent.** The null patch is sent exactly when the instance is the holder.
- **Success.** It succeeds exactly when no patch was needed or the patch was accepted.
- **Store after success.** After success the instance is not the holder, and only that license's holder changed.
- **Rejected patch.** A 422 reports the error body's `message`, or the reason when the body has none or is not a JSON dict. Any other status reports "Failed to patch license" with the reason.

#### InstanceSpec

`K8sClient.InstanceSpec` (k8s_client.py:589-608):

- `licenseRef` is always present.
- Version, backend and secret ref appear exactly when truthy.
- Version, backend and secret ref hold the given values, the secret ref as `{name: <secret>}`.
- `resources` appears exactly when cpu or memory is truthy, and holds just the truthy ones, with their values.

#### CleanObject

`FluxCleanup.CleanObject` (flux_cleanup.py:39-54):

- **Left unchanged.** A non-dict, or a dict without metadata, is unchanged.
- **Dict metadata.** Dict metadata loses exactly the five server fields, and all other keys are unchanged.
- **Failures.** Non-dict metadata fails exactly when Python's `in`/`pop` would raise.

#### SetupNfsVolume

`SetupVolume.SetupNfsVolume` (setup_volume.py:1-64):

- **Failure.** It fails exactly when the name is missing, or the backend (default nfs) is nfs and no server is set.
- **Volume info.** The info echoes the server, data path, plugin and world paths (`Data/modules`, `Data/worlds`) and the backend.
- **Directories.** Directories are created exactly for a mounted nfs root, and all of them lie under it.

#### Check

`CheckLicense.Check` (check_license.py:4-79):

- **Fatal case.** It is fatal exactly when licenseRef.name is missing, empty or "null".
- **Active.** The instance is active exactly when the lookup found a license whose spec names it.
- **Base domain.** The base domain defaults to `k8s.orb.local`.
- **Status.** The status is exactly `{isActive}`.
- **Patch.** The reconciliation patch is sent exactly when the lookup found the license.

## Left out

- **I/O.** No I/O is modelled: file reads and writes, `print`, `sys.exit` codes, environment access (passed in as `Environment`), `os.makedirs` (returned as a list), YAML parsing and formatting (documents are `Json`), and key order in dicts.
- **Clock, network and async.** Time, HTTP, the Kubernetes API and asyncio are inputs: a clock as a sequence of readings, the probe response, the instance listing, lookup and patch answers, and a map of named objects.
- **Concurrency and shared caches.** Concurrency, global caches and cache staleness between bot calls are not modelled.
- **Excluded parts of the repository.** The Discord UI is not modelled: `bot.py`, `cogs/`, `views.py`, `embeds.py`. Neither are `sidecar_monitor.py` (an endless I/O loop), `kratix_helpers.py` (file I/O), the pipeline `main.py`/`delete.py` entry points (orchestration of reads, writes and exits) and the configuration constants (inlined).
- **Networked and async parts of the version module.** `get_foundry_versions`, `refresh_cache` and the Docker Hub fetch (networked, async) are out of scope.
- **k8s_client plumbing.** The plain get/list/patch/delete wrappers, client initialisation and CRD schema reading are out of scope. Instance names are looked up in one namespace; namespace resolution is a parameter.
- **DNSEndpoint emission.** `generate_routes` does not write DNSEndpoints. The DNSEndpoint template is modelled on its own; `dnsTarget` is read but unused.
- **Values that crash.** `null` values where the source expects a dict (for example `spec: null`, `gateway: null` or `annotations: null`) raise in the source and are not modelled. Absent keys are modelled.
- **Python `\d` and `int`.** Both accept any Unicode decimal digit; the version model accepts ASCII digits only.
- **Versions.Components:** `int()` raising ValueError is unreachable for names the pattern accepts with ASCII digits, so the `except ValueError` branches are not modelled.
- **FoundryApi.CheckPlayers:** `users` is modelled as an optional integer. A non-integer `users` value, which would make `players > 0` raise in the license pipeline, is not modelled.
- **Tasks.Wait:** it requires a finite trace whose last clock reading is past the deadline. A clock that never advances far enough, which would poll forever, is not modelled.
- **Tasks.Wait:** exceptions raised by `get_fn` or `check_fn` propagate out of the wait in the source. The model takes their results as given sequences and does not model the exception.
- **Tasks.Sweep:** a failing `delete_foundry_instance` is not modelled as an exception, because that call catches its own errors and returns a result dict.
- **GenerateRoute.License:** a null `activeInstanceName` or `status.activeInstance` is read as "". The source then reports `activeInstance: null` rather than "", and otherwise behaves the same, because no instance is named "" or null.
- **GenerateRoute.GenerateRoutesShape:** it assumes instance names are non-empty and unique among the bound instances. Kubernetes names in one namespace are.
- **K8sClient.Reply:** an error body is either not a JSON dict or a dict with an optional string `message`. A `message` that is not a string, which Python would format into the text, is not modelled.
- **FluxCleanup.Cleanup:** the pass is all-or-nothing. In the source, files rewritten before an exception stay rewritten.
- **GenerateManifests.Generate:** the corrected call drops the two undeclared keywords, so the admin secret name reaches no manifest. The Deployment reads the fixed `foundry-credentials` secret, as the template does.
- **Cache.Get:** timestamps and TTLs are exact reals. The source uses the float from `time.time()`, so rounding is not modelled.
- **CheckLicense.Check:** it returns the pair the source returns, although the source annotates the return type as `bool`.

## Findings

| source | as written | input that shows it | evidently intended | confidence | as-written member | corrected member |
|---|---|---|---|---|---|---|
| promises/foundry-license/configure-pipeline/scripts/generate_route.py:123-131 | Passes `backend_ns=` to `httproute_template`, whose parameter list (lib/foundry_lib/manifest_templates.py:1) has no such parameter, so the call raises TypeError | Any license with one instance whose `licenseRef.name` is the license | The active route targets the instance Service in the route's namespace; a standby route targets `foundry-standby-page` in `foundry-vtt` | high; not executed | GenerateRoute.RouteCallRejectedWhenAnyInstanceBound | GenerateRoute.GenerateRoutesShape |
| promises/foundry-instance/configure-pipeline/scripts/generate_manifests.py:56-69 | Passes `admin_secret_name=` and `storage_backend=` to `deployment_template` (lib/foundry_lib/manifest_templates.py:54), which declares neither, so every run raises TypeError after writing `pvc.yaml` | Any FoundryInstance with a name and namespace | The Deployment, Service and RBAC files are written with the declared parameters | high; not executed | GenerateManifests.DeploymentCallAlwaysRejected | GenerateManifests.Generate |
| promises/foundry-license/configure-pipeline/scripts/generate_route.py:94-101 | The deletion override changes the holder inside the per-instance loop, after earlier entries were emitted with the old holder | License with desired `b`, confirmed `a`, mode `force`; listing `a`, then `b` carrying `scheduled-delete-at` | The reported `activeInstance` is "" or an instance that is not pending deletion, and an entry is active exactly when it is named after it | medium; not executed | GenerateRoute.OverrideAfterEmissionLeavesNoActiveEntry | GenerateRoute.GenerateRoutesSettled |
